/** What holds of the lists that the slots' words and links describe, in every state of every run. */
module UnorderedMapRuns {
  import opened UnorderedMap
  import opened UnorderedMapProofs

  datatype Move = Move(thread: nat, action: Action)

  ghost predicate IsRun(states: seq<State>, moves: seq<Move>) {
    && |states| == |moves| + 1 && Init(states[0])
    && forall i | 0 <= i < |moves| :: Next(states[i], moves[i].thread, moves[i].action, states[i + 1])
  }

  lemma {:induction false} RunKeeps(states: seq<State>, moves: seq<Move>, i: nat)
    requires IsRun(states, moves) && i < |states|
    ensures Inv(states[i])
  {
    hide Inv, Next, Init, Grows;
    if i == 0 {
      InitHolds(states[0]);
    } else {
      RunKeeps(states, moves, i - 1);
      NextKeeps(states[i - 1], moves[i - 1].thread, moves[i - 1].action, states[i]);
    }
  }

  // ----- the list of a bucket, from its word through the links to nil

  function SlotAt(ids: seq<nat>, k: nat): nat {
    if k < |ids| then ids[k] else 0
  }

  ghost predicate IsList(s: State, b: nat, ids: seq<nat>) {
    && b < |s.slots| && Head(WordOf(s, b)) == SlotAt(ids, 0)
    && (forall k: nat | k < |ids| :: LeadsTo(s, ids[k], SlotAt(ids, k + 1)))
  }

  predicate LeadsTo(s: State, i: nat, next: nat) {
    0 < i < |s.slots| && s.slots[i].next == next
  }

  lemma EndsAtNil(s: State, b: nat, ids: seq<nat>, k: nat)
    requires IsList(s, b, ids) && k <= |ids|
    ensures SlotAt(ids, k) == 0 <==> k == |ids|
  {
    assert k < |ids| ==> LeadsTo(s, ids[k], SlotAt(ids, k + 1));
  }

  /** Words and links describe at most one list. */
  lemma {:induction false} ListUnique(s: State, b: nat, ids: seq<nat>, ids': seq<nat>, k: nat)
    requires IsList(s, b, ids) && IsList(s, b, ids') && k <= |ids|
    ensures k <= |ids'| && ids[..k] == ids'[..k] && SlotAt(ids, k) == SlotAt(ids', k)
    ensures k == |ids| ==> ids == ids'
  {
    if k > 0 {
      ListUnique(s, b, ids, ids', k - 1);
      assert LeadsTo(s, ids[k - 1], SlotAt(ids, k)) && LeadsTo(s, ids'[k - 1], SlotAt(ids', k));
      assert ids[..k] == ids[..k - 1] + [ids[k - 1]] && ids'[..k] == ids'[..k - 1] + [ids'[k - 1]];
    }
    if k == |ids| {
      EndsAtNil(s, b, ids', k);
      assert ids == ids[..k];
    }
  }

  function Backwards(ids: seq<nat>): (r: seq<nat>)
    ensures |r| == |ids| && forall k | 0 <= k < |ids| :: r[k] == ids[|ids| - 1 - k]
  {
    seq(|ids|, k requires 0 <= k < |ids| => ids[|ids| - 1 - k])
  }

  lemma ChainIsList(s: State, b: nat)
    requires Inv(s) && b < |s.slots|
    ensures IsList(s, b, Backwards(s.chains[b]))
  {
    var ids, r := s.chains[b], Backwards(s.chains[b]);
    assert ChainOk(s, b);
    forall k: nat | k < |r|
      ensures LeadsTo(s, r[k], SlotAt(r, k + 1))
    {
      assert MemberOk(s, b, |ids| - 1 - k);
      if k + 1 < |r| { assert ids[..|ids| - 1 - k][|ids| - 2 - k] == ids[|ids| - 2 - k]; }
    }
  }

  /** The list of a bucket: no slot twice, no key twice, every slot in use and in the bucket of its key. */
  ghost predicate ListOk(s: State, b: nat, ids: seq<nat>) {
    && Sized(s)
    && (forall k: nat | k < |ids| ::
          ids[k] < |s.slots| && Occupied(WordOf(s, ids[k])) && KeyToSlotIdx(s, s.slots[ids[k]].key) == b)
    && (forall j: nat, k: nat | j < k < |ids| && ids[j] < |s.slots| && ids[k] < |s.slots| ::
          ids[j] != ids[k] && s.slots[ids[j]].key != s.slots[ids[k]].key)
  }

  /** Every bucket's word leads to nil, along a list that is in order. */
  lemma BucketsInOrder(states: seq<State>, moves: seq<Move>, n: nat, b: nat)
    requires IsRun(states, moves) && n < |states| && b < |states[n].slots|
    ensures exists ids :: IsList(states[n], b, ids)
    ensures forall ids :: IsList(states[n], b, ids) ==> ListOk(states[n], b, ids)
  {
    hide Init, Next;
    RunKeeps(states, moves, n);
    var s := states[n];
    var r := Backwards(s.chains[b]);
    ChainIsList(s, b);
    ChainInOrder(s, b);
    forall ids | IsList(s, b, ids)
      ensures ids == r
    {
      ListUnique(s, b, ids, r, |ids|);
    }
  }

  lemma ChainInOrder(s: State, b: nat)
    requires Inv(s) && b < |s.slots|
    ensures ListOk(s, b, Backwards(s.chains[b]))
  {
    var ids, r := s.chains[b], Backwards(s.chains[b]);
    assert ChainOk(s, b);
    forall k: nat | k < |r|
      ensures r[k] < |s.slots| && Occupied(WordOf(s, r[k])) && KeyToSlotIdx(s, s.slots[r[k]].key) == b
    {
      assert MemberOk(s, b, |ids| - 1 - k);
    }
    forall j: nat, k: nat | j < k < |r|
      ensures s.slots[r[j]].key != s.slots[r[k]].key
    {
      assert s.slots[ids[|ids| - 1 - k]].key != s.slots[ids[|ids| - 1 - j]].key;
    }
  }

  // ----- a key's slot

  /** The slot is in the list of the key's bucket and holds the key. */
  ghost predicate LinkedAt(s: State, key: int, i: nat) {
    && Sized(s) && i < |s.slots| && s.slots[i].key == key
    && exists ids :: IsList(s, KeyToSlotIdx(s, key), ids) && i in ids
  }

  lemma LinkedIsInChain(s: State, key: int, i: nat)
    requires Inv(s)
    ensures LinkedAt(s, key, i) <==>
              i < |s.slots| && s.slots[i].key == key && InChain(s, KeyToSlotIdx(s, key), i)
  {
    var b := KeyToSlotIdx(s, key);
    var r := Backwards(s.chains[b]);
    ChainIsList(s, b);
    assert i in r <==> i in s.chains[b] by {
      assert forall k | 0 <= k < |r| :: s.chains[b][k] == r[|r| - 1 - k];
    }
    if LinkedAt(s, key, i) {
      var ids :| IsList(s, b, ids) && i in ids;
      ListUnique(s, b, ids, r, |ids|);
    }
  }

  /** No key is linked at two slots. */
  lemma KeyLinkedOnce(states: seq<State>, moves: seq<Move>, n: nat, key: int, i: nat, j: nat)
    requires IsRun(states, moves) && n < |states| && LinkedAt(states[n], key, i) && LinkedAt(states[n], key, j)
    ensures i == j
  {
    RunKeeps(states, moves, n);
    var s := states[n];
    LinkedIsInChain(s, key, i);
    LinkedIsInChain(s, key, j);
    InChainOnce(s, key, i, j);
  }

  lemma InChainOnce(s: State, key: int, i: nat, j: nat)
    requires Inv(s) && i < |s.slots| && j < |s.slots| && s.slots[i].key == key == s.slots[j].key
    requires InChain(s, KeyToSlotIdx(s, key), i) && InChain(s, KeyToSlotIdx(s, key), j)
    ensures i == j
  {
    assert ChainOk(s, KeyToSlotIdx(s, key));
  }

  // ----- from one state of a run to a later one

  lemma GrowsOn(s: State, s': State, s'': State)
    requires Grows(s, s') && Grows(s', s'')
    ensures Grows(s, s'')
  {
    forall b: nat, i: nat | InChain(s, b, i) && i < |s.slots|
      ensures s''.slots[i].key == s.slots[i].key && s''.slots[i].next == s.slots[i].next
    {
      assert s.chains[b] <= s'.chains[b];
      assert InChain(s', b, i);
    }
  }

  lemma {:induction false} RunGrows(states: seq<State>, moves: seq<Move>, i: nat, j: nat)
    requires IsRun(states, moves) && i <= j < |states|
    ensures Grows(states[i], states[j])
  {
    hide Next, Init, Grows;
    if i == j {
      RunKeeps(states, moves, i);
      SameGrows(states[i]);
    } else {
      RunGrows(states, moves, i, j - 1);
      RunKeeps(states, moves, j - 1);
      NextKeeps(states[j - 1], moves[j - 1].thread, moves[j - 1].action, states[j]);
      GrowsOn(states[i], states[j - 1], states[j]);
    }
  }

  lemma SameGrows(s: State)
    requires Inv(s)
    ensures Grows(s, s)
  {
  }

  /** A linked key stays linked, at the same slot. */
  lemma LinkedForever(states: seq<State>, moves: seq<Move>, i: nat, j: nat, key: int, at: nat)
    requires IsRun(states, moves) && i <= j < |states| && LinkedAt(states[i], key, at)
    ensures LinkedAt(states[j], key, at)
  {
    hide LinkedAt, Inv, Grows, Init, Next;
    RunKeeps(states, moves, i);
    RunKeeps(states, moves, j);
    RunGrows(states, moves, i, j);
    LinkedIsInChain(states[i], key, at);
    GrowsSized(states[i], states[j]);
    FoundStays(states[i], states[j], key, at);
    LinkedIsInChain(states[j], key, at);
  }

  /** What a find has found is linked, now and ever after. */
  lemma FoundForever(states: seq<State>, moves: seq<Move>, i: nat, j: nat, t: nat)
    requires IsRun(states, moves) && i <= j < |states| && t in states[i].threads && states[i].threads[t].Answered?
    requires states[i].threads[t].found != 0
    ensures LinkedAt(states[j], states[i].threads[t].key, states[i].threads[t].found)
  {
    RunKeeps(states, moves, i);
    assert ThreadOk(states[i], states[i].threads[t]);
    LinkedIsInChain(states[i], states[i].threads[t].key, states[i].threads[t].found);
    LinkedForever(states, moves, i, j, states[i].threads[t].key, states[i].threads[t].found);
  }

  /** The find that a thread has started sees at least what was linked in an earlier state. */
  ghost predicate SeesAll(s: State, pc: Pc) {
    Sized(s) && match pc
                case Look(key, _, from, _) => |ChainOf(s, key)| <= from
                case Answered(key, _, from) => |ChainOf(s, key)| <= from
                case _ => true
  }

  lemma SeesAllStep(s0: State, s: State, t: nat, a: Action, s': State, u: nat)
    requires Grows(s0, s) && Next(s, t, a, s') && u in s.threads && SeesAll(s0, s.threads[u])
    ensures u in s'.threads && SeesAll(s0, s'.threads[u])
  {
    if a.ToLookHead? && t == u {
      var b := KeyToSlotIdx(s0, s.threads[t].key);
      assert s0.chains[b] <= s.chains[b];
    }
  }

  lemma {:induction false} FindSeesAll(states: seq<State>, moves: seq<Move>, i: nat, j: nat, t: nat)
    requires IsRun(states, moves) && i <= j < |states| && t in states[i].threads && states[i].threads[t].Idle?
    ensures t in states[j].threads && SeesAll(states[i], states[j].threads[t])
  {
    hide Inv, Next, Init, Grows;
    RunKeeps(states, moves, i);
    if i == j {
      SameGrows(states[i]);
      GrowsSized(states[i], states[i]);
    } else {
      FindSeesAll(states, moves, i, j - 1, t);
      RunGrows(states, moves, i, j - 1);
      SeesAllStep(states[i], states[j - 1], moves[j - 1].thread, moves[j - 1].action, states[j], t);
    }
  }

  /** A find that starts once its key is linked finds it, at that slot. */
  lemma FindFinds(states: seq<State>, moves: seq<Move>, i: nat, j: nat, t: nat, at: nat)
    requires IsRun(states, moves) && i <= j < |states| && t in states[i].threads && states[i].threads[t].Idle?
    requires t in states[j].threads && states[j].threads[t].Answered?
    requires LinkedAt(states[i], states[j].threads[t].key, at)
    ensures states[j].threads[t].found == at
  {
    hide LinkedAt, Grows, Init, Next;
    var key := states[j].threads[t].key;
    RunKeeps(states, moves, i);
    RunKeeps(states, moves, j);
    LinkedForever(states, moves, i, j, key, at);
    RunGrows(states, moves, i, j);
    FindSeesAll(states, moves, i, j, t);
    LinkedIsInChain(states[i], key, at);
    LinkedIsInChain(states[j], key, at);
    assert ThreadOk(states[j], states[j].threads[t]);
    SeenNotMissed(states[i], states[j], key, at, states[j].threads[t].from, states[j].threads[t].found);
    InChainOnce(states[j], key, at, states[j].threads[t].found);
  }

  lemma SeenNotMissed(s: State, s': State, key: int, at: nat, from: nat, found: nat)
    requires Grows(s, s') && at < |s.slots| && s.slots[at].key == key && InChain(s, KeyToSlotIdx(s, key), at)
    requires |ChainOf(s, key)| <= from && (found == 0 ==> NotAmong(s', key, 0, from))
    ensures found != 0
  {
    var b := KeyToSlotIdx(s, key);
    var j: nat :| j < |s.chains[b]| && s.chains[b][j] == at;
    assert s'.chains[b][j] == at && s'.slots[at].key == key;
  }

  // ----- nobody ever waits

  ghost predicate CanStep(s: State, t: nat) {
    exists a: Action, s': State :: Next(s, t, a, s')
  }

  /** The map is lock-free: in every state every thread has a next step, whatever the others do. */
  lemma NeverWaits(states: seq<State>, moves: seq<Move>, n: nat, t: nat)
    requires IsRun(states, moves) && n < |states| && t in states[n].threads
    ensures CanStep(states[n], t)
  {
    hide Init, CanStep, ThreadOk;
    RunKeeps(states, moves, n);
    var s, pc := states[n], states[n].threads[t];
    assert ThreadOk(s, pc);
    if pc.Idle? || pc.FindHead? || pc.Scan? || pc.Allocate? {
      EarlyStep(s, t);
    } else if pc.Construct? || pc.SetNext? || pc.Swap? || pc.Mark? || pc.Undo? {
      OwnerStep(s, t);
    } else {
      FindStep(s, t);
    }
  }

  lemma EarlyStep(s: State, t: nat)
    requires Inv(s) && t in s.threads && ThreadOk(s, s.threads[t])
    requires var pc := s.threads[t]; pc.Idle? || pc.FindHead? || pc.Scan? || pc.Allocate?
    ensures CanStep(s, t)
  {
    match s.threads[t]
    case Idle(_) => assert Next(s, t, ToFind(0), WithPc(s, t, LookHead(0)));
    case FindHead(job) =>
      var n := |ChainOf(s, job.key)|;
      assert Next(s, t, ToReadHead, WithPc(s, t, Scan(job, Head(WordOf(s, KeyToSlotIdx(s, job.key))), n, n)));
    case Scan(job, cur, from, left) =>
      ScanAt(s, job.key, cur, from, left);
      var next := if cur == 0 then (if job.idx == 0 then Allocate(job, from) else SetNext(job, from))
                  else if s.slots[cur].key == job.key then
                    if job.idx == 0 then Idle(Got(cur, false)) else Undo(job.idx, Got(cur, false))
                  else Scan(job, s.slots[cur].next, from, if left > 0 then left - 1 else 0);
      assert Next(s, t, ToScan, WithPc(s, t, next));
    case Allocate(_, _) => assert Next(s, t, ToAllocate(0, true), WithPc(s, t, Idle(NoSlot)));
  }

  lemma OwnerStep(s: State, t: nat)
    requires Inv(s) && t in s.threads && ThreadOk(s, s.threads[t])
    requires var pc := s.threads[t]; pc.Construct? || pc.SetNext? || pc.Swap? || pc.Mark? || pc.Undo?
    ensures CanStep(s, t)
  {
    assert OwnerOk(s, s.threads[t]);
    match s.threads[t]
    case Construct(job, _) => assert Next(s, t, ToConstruct(true), WithPc(s, t, Undo(job.idx, Threw)));
    case SetNext(job, from) =>
      assert Next(s, t, ToSetNext,
                  WithPc(WithSlot(s, job.idx, s.slots[job.idx].(next := Head(job.prev))), t, Swap(job, from)));
    case Swap(job, _) =>
      var slot := KeyToSlotIdx(s, job.key);
      if WordOf(s, slot) == job.prev {
        var after := 4 * job.idx + (if slot == job.idx then LINKED else StateOf(job.prev));
        assert Next(s, t, ToSwap, WithPc(WithSlot(s, slot, s.slots[slot].(headAndState := after))
                                           .(chains := s.chains[slot := s.chains[slot] + [job.idx]]),
                                         t, if slot == job.idx then Idle(Got(job.idx, true)) else Mark(job.idx)));
      } else {
        assert Next(s, t, ToSwap, WithPc(s, t, FindHead(job.(prev := WordOf(s, slot), seen := |s.chains[slot]|))));
      }
    case Mark(idx) => assert Next(s, t, ToMark, WithPc(StateUpdate(s, idx, CONSTRUCTING, LINKED), t, Idle(Got(idx, true))));
    case Undo(idx, answer) => assert Next(s, t, ToUndo, WithPc(StateUpdate(s, idx, CONSTRUCTING, EMPTY), t, Idle(answer)));
  }

  lemma FindStep(s: State, t: nat)
    requires Inv(s) && t in s.threads && ThreadOk(s, s.threads[t])
    requires var pc := s.threads[t]; pc.LookHead? || pc.Look? || pc.Answered?
    ensures CanStep(s, t)
  {
    match s.threads[t]
    case LookHead(key) =>
      var n := |ChainOf(s, key)|;
      assert Next(s, t, ToLookHead, WithPc(s, t, Look(key, Head(WordOf(s, KeyToSlotIdx(s, key))), n, n)));
    case Look(key, cur, from, left) =>
      ScanAt(s, key, cur, from, left);
      var next := if cur == 0 then Answered(key, 0, from)
                  else if s.slots[cur].key == key then Answered(key, cur, from)
                  else Look(key, s.slots[cur].next, from, if left > 0 then left - 1 else 0);
      assert Next(s, t, ToLook, WithPc(s, t, next));
    case Answered(_, _, _) => assert Next(s, t, ToAnswer, WithPc(s, t, Idle(None)));
  }
}
