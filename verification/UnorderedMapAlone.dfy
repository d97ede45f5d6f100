/** A call during which no other thread moves comes to its end, whatever the others are in the middle of. */
module UnorderedMapAlone {
  import opened UnorderedMap
  import opened UnorderedMapProofs
  import opened UnorderedMapRuns
  import opened UnorderedMapCalls

  function ChainLength(s: State, key: int): nat {
    if Sized(s) then |ChainOf(s, key)| else 0
  }

  /** The word that the compare-and-swap expects is not the bucket's any more. */
  predicate Stale(s: State, job: Job) {
    Sized(s) && WordOf(s, KeyToSlotIdx(s, job.key)) != job.prev
  }

  /** What a compare-and-swap that fails sends back to. */
  function Again(s: State, job: Job): nat {
    if Stale(s, job) then ChainLength(s, job.key) + 6 else 0
  }

  /** Taking a slot may change the bucket's own word. */
  function Taking(s: State, job: Job): nat {
    if job.idx == 0 then ChainLength(s, job.key) + 7 else 0
  }

  /** The most steps that the call still takes when no other thread moves, but for attempts to take a slot that fail. */
  function StepsLeft(s: State, pc: Pc): nat {
    match pc
    case Idle(_) => 0
    case FindHead(job) => ChainLength(s, job.key) + 6 + Again(s, job) + Taking(s, job)
    case Scan(job, _, _, left) => left + 5 + Again(s, job) + Taking(s, job)
    case Allocate(job, _) => 4 + Again(s, job) + Taking(s, job)
    case Construct(job, _) => 4 + Again(s, job)
    case SetNext(job, _) => 3 + Again(s, job)
    case Swap(job, _) => 2 + Again(s, job)
    case Mark(_) => 1
    case Undo(_, _) => 1
    case LookHead(key) => ChainLength(s, key) + 3
    case Look(_, _, _, left) => left + 2
    case Answered(_, _, _) => 1
  }

  lemma ScanLess(s: State, t: nat, s': State)
    requires Inv(s) && Next(s, t, ToScan, s')
    ensures t in s'.threads && StepsLeft(s', s'.threads[t]) < StepsLeft(s, s.threads[t])
  {
    hide ChainsOk, OwnersOk;
    var pc := s.threads[t];
    assert ThreadOk(s, pc);
    ScanAt(s, pc.job.key, pc.cur, pc.from, pc.left);
  }

  lemma SearchLess(s: State, t: nat, a: Action, s': State)
    requires Inv(s) && Next(s, t, a, s') && t in s.threads
    requires a.ToReadHead? || a.ToLookHead? || a.ToLook?
    ensures t in s'.threads && StepsLeft(s', s'.threads[t]) < StepsLeft(s, s.threads[t])
  {
    hide ChainsOk, OwnersOk;
    assert ThreadOk(s, s.threads[t]);
    match s.threads[t]
    case Look(key, cur, from, left) => ScanAt(s, key, cur, from, left);
    case _ =>
  }

  lemma ChangeLess(s: State, t: nat, a: Action, s': State)
    requires Inv(s) && Next(s, t, a, s') && t in s.threads && s' != s
    requires a.ToAllocate? || a.ToConstruct? || a.ToSetNext? || a.ToSwap? || a.ToMark? || a.ToUndo? || a.ToAnswer?
    ensures t in s'.threads && StepsLeft(s', s'.threads[t]) < StepsLeft(s, s.threads[t])
  {
    hide ChainsOk, OwnersOk, JobOk, NotAmong;
    assert ThreadOk(s, s.threads[t]);
  }

  /** From the i-th state to the j-th only t moves, each move changes something, and t is in the middle of a call. */
  ghost predicate IsAlone(states: seq<State>, moves: seq<Move>, t: nat, i: nat, j: nat) {
    && IsRun(states, moves) && i <= j < |states| && t in states[i].threads
    && (forall k | i <= k < j :: moves[k].thread == t && states[k + 1] != states[k])
    && (forall k | i <= k < j :: t in states[k].threads && !states[k].threads[t].Idle?)
  }

  lemma NotAStart(s: State, t: nat, a: Action, s': State)
    requires Next(s, t, a, s') && t in s.threads && !s.threads[t].Idle?
    ensures !a.ToInsert? && !a.ToFind?
  {
  }

  /** A call of findOrConstruct or of find is over after a number of its own steps known beforehand. */
  lemma {:induction false} LoneCallEnds(states: seq<State>, moves: seq<Move>, t: nat, i: nat, j: nat)
    requires IsAlone(states, moves, t, i, j)
    ensures t in states[j].threads
    ensures StepsLeft(states[j], states[j].threads[t]) + (j - i) <= StepsLeft(states[i], states[i].threads[t])
  {
    hide Inv, Next, Init, StepsLeft;
    if i < j {
      var k := j - 1;
      LoneCallEnds(states, moves, t, i, k);
      RunKeeps(states, moves, k);
      var s, a, s' := states[k], moves[k].action, states[j];
      NotAStart(s, t, a, s');
      if a.ToScan? {
        ScanLess(s, t, s');
      } else if a.ToReadHead? || a.ToLookHead? || a.ToLook? {
        SearchLess(s, t, a, s');
      } else {
        ChangeLess(s, t, a, s');
      }
    }
  }
}
