/** What a call of findOrConstruct has done when it is over, and what its answer means. */
module UnorderedMapCalls {
  import opened UnorderedMap
  import opened UnorderedMapProofs
  import opened UnorderedMapRuns

  /** Thread t begins to find or construct the key with the a-th move, and is done in the b-th state. */
  ghost predicate IsCall(states: seq<State>, moves: seq<Move>, t: nat, key: int, a: nat, b: nat) {
    && IsRun(states, moves) && a < b < |states| && moves[a] == Move(t, ToInsert(key))
    && (forall i | a < i < b :: t in states[i].threads && !states[i].threads[t].Idle?)
    && t in states[b].threads && states[b].threads[t].Idle?
  }

  /** The slot is in the chain of the key's bucket and holds the key. */
  predicate Holds(s: State, key: int, i: nat) {
    Sized(s) && i < |s.slots| && s.slots[i].key == key && InChain(s, KeyToSlotIdx(s, key), i)
  }

  predicate Links(s: State, s': State, key: int, i: nat) {
    !Holds(s, key, i) && Holds(s', key, i)
  }

  /** One of t's own steps from a on and before b has linked the key's slot. */
  ghost predicate LinkedBy(states: seq<State>, moves: seq<Move>, t: nat, key: int, i: nat, a: nat, b: nat)
    requires b < |states| == |moves| + 1
  {
    exists j :: a <= j < b && moves[j].thread == t && Links(states[j], states[j + 1], key, i)
  }

  /** t has had the slot for itself behind a and up to b. */
  ghost predicate HasHad(states: seq<State>, t: nat, i: nat, a: nat, b: nat)
    requires b < |states|
  {
    exists j :: a < j <= b && t in states[j].threads && Own(states[j].threads[t]) == i
  }

  ghost predicate ThrownBy(moves: seq<Move>, t: nat, a: nat, b: nat) {
    exists j :: a <= j < b && j < |moves| && moves[j] == Move(t, ToConstruct(true))
  }

  ghost predicate GivenUpBy(moves: seq<Move>, t: nat, a: nat, b: nat) {
    exists j :: a <= j < b && j < |moves| && moves[j].thread == t && moves[j].action.ToAllocate? && moves[j].action.giveUp
  }

  // ----- one step of the call

  /** The places such a call can be at. */
  predicate AtCall(key: int, pc: Pc) {
    match pc
    case Idle(answer) => answer != None
    case Mark(_) => true
    case Undo(_, answer) => answer == Threw || (answer.Got? && !answer.constructed)
    case FindHead(job) => job.key == key
    case Scan(job, _, _, _) => job.key == key
    case Allocate(job, _) => job.key == key
    case Construct(job, _) => job.key == key
    case SetNext(job, _) => job.key == key
    case Swap(job, _) => job.key == key
    case _ => false
  }

  predicate HasLinked(pc: Pc, i: nat) {
    pc == Mark(i) || pc == Idle(Got(i, true))
  }

  predicate HasThrown(pc: Pc) {
    pc == Idle(Threw) || (pc.Undo? && pc.answer == Threw)
  }

  /** The slot the call has decided to answer with. */
  predicate AnswersWith(pc: Pc, i: nat) {
    match pc
    case Idle(answer) => answer.Got? && answer.slot == i
    case Mark(idx) => idx == i
    case Undo(_, answer) => answer.Got? && answer.slot == i
    case _ => false
  }

  lemma CallStep(s: State, t: nat, act: Action, s': State, key: int)
    requires Next(s, t, act, s') && t in s.threads && !s.threads[t].Idle? && AtCall(key, s.threads[t])
    ensures t in s'.threads && AtCall(key, s'.threads[t])
    ensures HasThrown(s'.threads[t]) <==> HasThrown(s.threads[t]) || act == ToConstruct(true)
    ensures s'.threads[t] == Idle(NoSlot) <==> act.ToAllocate? && act.giveUp
  {
  }

  /** A slot is linked by the compare-and-swap only. */
  lemma NoLink(s: State, t: nat, act: Action, s': State, key: int, i: nat)
    requires Inv(s) && Next(s, t, act, s') && !act.ToSwap?
    ensures !Links(s, s', key, i)
  {
    hide Inv, DoConstruct, Holds;
    if act.ToConstruct? { KeyWritten(s, t, s', act.throws, key, i); } else { SameKeys(s, t, act, s', key, i); }
  }

  lemma KeyWritten(s: State, t: nat, s': State, throws: bool, key: int, i: nat)
    requires Inv(s) && DoConstruct(s, t, s', throws)
    ensures !Links(s, s', key, i)
  {
    hide ChainsOk, JobOk, NotAmong;
    assert OwnerOk(s, s.threads[t]) && ThreadOk(s, s.threads[t]);
    assert !InChain(s, KeyToSlotIdx(s, key), s.threads[t].job.idx);
  }

  lemma SameKeys(s: State, t: nat, act: Action, s': State, key: int, i: nat)
    requires Next(s, t, act, s') && !act.ToSwap? && !act.ToConstruct?
    ensures Holds(s', key, i) == Holds(s, key, i)
  {
  }

  lemma OtherStep(s: State, t: nat, act: Action, s': State, key: int, i: nat)
    requires Next(s, t, act, s') && t in s.threads && !s.threads[t].Idle? && !act.ToSwap? && AtCall(key, s.threads[t])
    ensures t in s'.threads && (HasLinked(s'.threads[t], i) <==> HasLinked(s.threads[t], i))
  {
  }

  lemma SwapStep(s: State, t: nat, s': State, key: int, i: nat)
    requires Inv(s) && DoSwap(s, t, s') && AtCall(key, s.threads[t])
    ensures t in s'.threads && (HasLinked(s'.threads[t], i) <==> Links(s, s', key, i)) && !HasLinked(s.threads[t], i)
  {
    hide ChainsOk, JobOk, NotAmong;
    assert OwnerOk(s, s.threads[t]) && ThreadOk(s, s.threads[t]);
  }

  lemma LinkStep(s: State, t: nat, act: Action, s': State, key: int, i: nat)
    requires Inv(s) && Next(s, t, act, s') && t in s.threads && !s.threads[t].Idle? && AtCall(key, s.threads[t])
    ensures t in s'.threads
    ensures HasLinked(s'.threads[t], i) <==> HasLinked(s.threads[t], i) || Links(s, s', key, i)
  {
    hide Inv, DoSwap, Links, HasLinked, AtCall;
    if act.ToSwap? {
      SwapStep(s, t, s', key, i);
    } else {
      NoLink(s, t, act, s', key, i);
      OtherStep(s, t, act, s', key, i);
    }
  }

  // ----- the slot answered with

  lemma HoldsStays(s: State, s': State, key: int, i: nat)
    requires Grows(s, s') && Holds(s, key, i)
    ensures Holds(s', key, i)
  {
    hide Grows;
    GrowsSized(s, s');
    FoundStays(s, s', key, i);
  }

  /** The call decides for a slot when it finds its key there, or when it has linked its own. */
  lemma AnswerStep(s: State, t: nat, act: Action, s': State, key: int, i: nat)
    requires Inv(s) && Next(s, t, act, s') && t in s.threads && !s.threads[t].Idle? && AtCall(key, s.threads[t])
    requires t in s'.threads && AnswersWith(s'.threads[t], i)
    ensures AnswersWith(s.threads[t], i) || Holds(s, key, i) || Links(s, s', key, i)
  {
    hide ChainsOk, JobOk, NotAmong;
    assert ThreadOk(s, s.threads[t]);
    if act.ToScan? {
      var pc := s.threads[t];
      ScanAt(s, key, pc.cur, pc.from, pc.left);
    } else if act.ToSwap? {
      SwapStep(s, t, s', key, i);
    }
  }

  /** What a call had and gave back is not what it answers with. */
  predicate SlotKept(pc: Pc, i: nat) {
    if pc.Idle? then AnswersWith(pc, i) ==> pc.last.constructed else Own(pc) == i
  }

  lemma SlotStep(s: State, t: nat, act: Action, s': State, key: int, i: nat)
    requires Inv(s) && Next(s, t, act, s') && t in s.threads && !s.threads[t].Idle? && AtCall(key, s.threads[t])
    requires i != 0 && Own(s.threads[t]) == i
    requires forall k: nat | AnswersWith(s.threads[t], k) :: Holds(s, key, k)
    ensures t in s'.threads && SlotKept(s'.threads[t], i)
  {
    hide ChainsOk, JobOk, NotAmong;
    assert ThreadOk(s, s.threads[t]) && OwnerOk(s, s.threads[t]);
    assert AnswersWith(s.threads[t], i) ==> Holds(s, key, i);
  }

  /** Only a slot of one's own is ever answered with as constructed. */
  lemma ConstructedStep(s: State, t: nat, act: Action, s': State, key: int)
    requires Inv(s) && Next(s, t, act, s') && t in s.threads && !s.threads[t].Idle? && AtCall(key, s.threads[t])
    requires t in s'.threads && s'.threads[t].Idle? && s'.threads[t].last.Got? && s'.threads[t].last.constructed
    ensures Own(s.threads[t]) == s'.threads[t].last.slot != 0
  {
    hide ChainsOk, JobOk, NotAmong;
    assert ThreadOk(s, s.threads[t]);
  }

  // ----- all along the call

  lemma StartStep(s: State, t: nat, s': State, key: int)
    requires Next(s, t, ToInsert(key), s')
    ensures t in s'.threads && s'.threads[t].FindHead? && s'.threads[t].job.key == key && s'.threads[t].job.idx == 0
    ensures s'.slots == s.slots && s'.chains == s.chains && s'.setup == s.setup
  {
  }

  lemma Starts(pc: Pc, key: int)
    requires pc.FindHead? && pc.job.key == key && pc.job.idx == 0
    ensures AtCall(key, pc) && !HasThrown(pc) && Own(pc) == 0 && !pc.Idle?
    ensures forall i: nat :: !HasLinked(pc, i) && !AnswersWith(pc, i)
  {
  }

  lemma SameHolds(s: State, s': State, key: int, i: nat)
    requires s'.slots == s.slots && s'.chains == s.chains && s'.setup == s.setup
    ensures !Links(s, s', key, i)
  {
  }

  lemma OthersStay(s: State, t: nat, act: Action, s': State, u: nat)
    requires Next(s, t, act, s') && u in s.threads && u != t
    ensures u in s'.threads && s'.threads[u] == s.threads[u]
  {
  }

  lemma {:induction false} CallRuns(states: seq<State>, moves: seq<Move>, t: nat, key: int, a: nat, b: nat, j: nat)
    requires IsCall(states, moves, t, key, a, b) && a < j <= b
    ensures t in states[j].threads && AtCall(key, states[j].threads[t])
    ensures HasThrown(states[j].threads[t]) <==> ThrownBy(moves, t, a, j)
    ensures states[j].threads[t] == Idle(NoSlot) <==> GivenUpBy(moves, t, a, j)
  {
    hide Init, Next, AtCall, HasThrown;
    StartStep(states[a], t, states[a + 1], key);
    if j == a + 1 {
      Starts(states[j].threads[t], key);
    } else {
      var i := j - 1;
      CallRuns(states, moves, t, key, a, b, i);
      if moves[i].thread == t {
        CallStep(states[i], t, moves[i].action, states[j], key);
      } else {
        OthersStay(states[i], moves[i].thread, moves[i].action, states[j], t);
      }
    }
  }

  lemma {:induction false} LinkRuns(states: seq<State>, moves: seq<Move>, t: nat, key: int, a: nat, b: nat, j: nat, i: nat)
    requires IsCall(states, moves, t, key, a, b) && a < j <= b
    ensures t in states[j].threads
    ensures HasLinked(states[j].threads[t], i) <==> LinkedBy(states, moves, t, key, i, a, j)
  {
    hide Init, Next, Inv, AtCall, HasLinked, Links;
    StartStep(states[a], t, states[a + 1], key);
    var k := j - 1;
    if k == a {
      Starts(states[j].threads[t], key);
      SameHolds(states[a], states[j], key, i);
    } else {
      LinkRuns(states, moves, t, key, a, b, k, i);
      CallRuns(states, moves, t, key, a, b, k);
      RunKeeps(states, moves, k);
      if moves[k].thread == t {
        LinkStep(states[k], t, moves[k].action, states[j], key, i);
      } else {
        OthersStay(states[k], moves[k].thread, moves[k].action, states[j], t);
      }
    }
  }

  lemma {:induction false} AnswerRuns(states: seq<State>, moves: seq<Move>, t: nat, key: int, a: nat, b: nat, j: nat, i: nat)
    requires IsCall(states, moves, t, key, a, b) && a < j <= b
    ensures t in states[j].threads && (AnswersWith(states[j].threads[t], i) ==> Holds(states[j], key, i))
  {
    hide Init, Next, Inv, AtCall, AnswersWith, Holds, Grows;
    StartStep(states[a], t, states[a + 1], key);
    var k := j - 1;
    if k == a {
      Starts(states[j].threads[t], key);
    } else {
      AnswerRuns(states, moves, t, key, a, b, k, i);
      CallRuns(states, moves, t, key, a, b, k);
      CallRuns(states, moves, t, key, a, b, j);
      RunKeeps(states, moves, k);
      RunGrows(states, moves, k, j);
      if moves[k].thread != t {
        OthersStay(states[k], moves[k].thread, moves[k].action, states[j], t);
      } else if AnswersWith(states[j].threads[t], i) {
        AnswerStep(states[k], t, moves[k].action, states[j], key, i);
      }
      if Holds(states[k], key, i) { HoldsStays(states[k], states[j], key, i); }
    }
  }

  lemma {:induction false} SlotRuns(states: seq<State>, moves: seq<Move>, t: nat, key: int, a: nat, b: nat, j: nat, i: nat)
    requires IsCall(states, moves, t, key, a, b) && a < j <= b && i != 0
    ensures t in states[j].threads && (HasHad(states, t, i, a, j) ==> SlotKept(states[j].threads[t], i))
  {
    hide Init, Next, Inv, AtCall, AnswersWith, Holds, Own, SlotKept;
    StartStep(states[a], t, states[a + 1], key);
    var k := j - 1;
    if k == a {
      Starts(states[j].threads[t], key);
    } else {
      SlotRuns(states, moves, t, key, a, b, k, i);
      CallRuns(states, moves, t, key, a, b, k);
      CallRuns(states, moves, t, key, a, b, j);
      RunKeeps(states, moves, k);
      OwnIsKept(states[j].threads[t], i);
      KeptIsOwn(states[k].threads[t], i);
      if HasHad(states, t, i, a, k) {
        if moves[k].thread != t {
          OthersStay(states[k], moves[k].thread, moves[k].action, states[j], t);
        } else {
          forall m: nat | AnswersWith(states[k].threads[t], m)
            ensures Holds(states[k], key, m)
          {
            AnswerRuns(states, moves, t, key, a, b, k, m);
          }
          SlotStep(states[k], t, moves[k].action, states[j], key, i);
        }
      }
    }
  }

  lemma OwnIsKept(pc: Pc, i: nat)
    requires i != 0
    ensures Own(pc) == i ==> SlotKept(pc, i)
  {
  }

  lemma KeptIsOwn(pc: Pc, i: nat)
    ensures SlotKept(pc, i) && !pc.Idle? ==> Own(pc) == i
  {
  }

  // ----- calls that are over

  lemma HoldsIsLinked(s: State, key: int, i: nat)
    requires Inv(s)
    ensures Holds(s, key, i) <==> LinkedAt(s, key, i)
  {
    hide ChainsOk, OwnersOk, ThreadsOk;
    SizedInv(s);
    LinkedIsInChain(s, key, i);
  }

  lemma SizedInv(s: State)
    requires Inv(s)
    ensures Sized(s)
  {
  }

  lemma Ends(key: int, pc: Pc)
    requires AtCall(key, pc) && pc.Idle?
    ensures pc.last != None
    ensures HasThrown(pc) <==> pc.last == Threw
    ensures pc == Idle(NoSlot) <==> pc.last == NoSlot
    ensures forall i: nat :: AnswersWith(pc, i) <==> pc.last.Got? && pc.last.slot == i
    ensures forall i: nat :: HasLinked(pc, i) <==> pc.last == Got(i, true)
  {
  }

  /**
   When findOrConstruct is done its key is linked, at the very slot it answers with; only a throwing constructor and a
   failed allocation, both of its own, make it end without one.
   */
  lemma InsertLinks(states: seq<State>, moves: seq<Move>, t: nat, key: int, a: nat, b: nat)
    requires IsCall(states, moves, t, key, a, b)
    ensures states[b].threads[t].Idle? && states[b].threads[t].last != None
    ensures var answer := states[b].threads[t].last; answer.Got? ==> LinkedAt(states[b], key, answer.slot)
    ensures states[b].threads[t].last == Threw <==> ThrownBy(moves, t, a, b)
    ensures states[b].threads[t].last == NoSlot <==> GivenUpBy(moves, t, a, b)
  {
    hide Init, Next, Inv, AtCall, AnswersWith, Holds, LinkedAt, ThrownBy, GivenUpBy, HasThrown, HasLinked;
    CallRuns(states, moves, t, key, a, b, b);
    Ends(key, states[b].threads[t]);
    var answer := states[b].threads[t].last;
    if answer.Got? {
      AnswerRuns(states, moves, t, key, a, b, b, answer.slot);
      RunKeeps(states, moves, b);
      HoldsIsLinked(states[b], key, answer.slot);
    }
  }

  /** "Constructed" is said, with a slot, exactly if the call's own thread had taken that slot. */
  lemma ConstructedIsOwn(states: seq<State>, moves: seq<Move>, t: nat, key: int, a: nat, b: nat)
    requires IsCall(states, moves, t, key, a, b) && states[b].threads[t].last.Got?
    ensures
      var answer := states[b].threads[t].last;
      answer.slot != 0 && (answer.constructed <==> HasHad(states, t, answer.slot, a, b))
  {
    hide Init, Next, Inv, AtCall, AnswersWith, Holds, HasHad, SlotKept, Own;
    var answer := states[b].threads[t].last;
    StartStep(states[a], t, states[a + 1], key);
    var k := b - 1;
    CallRuns(states, moves, t, key, a, b, k);
    CallRuns(states, moves, t, key, a, b, b);
    Ends(key, states[b].threads[t]);
    RunKeeps(states, moves, k);
    RunKeeps(states, moves, b);
    AnswerRuns(states, moves, t, key, a, b, b, answer.slot);
    HeldNotNil(states[b], key, answer.slot);
    if moves[k].thread != t { OthersStay(states[k], moves[k].thread, moves[k].action, states[b], t); }
    if answer.constructed {
      ConstructedStep(states[k], t, moves[k].action, states[b], key);
      HadBefore(states, t, answer.slot, a, k, b);
    } else {
      SlotRuns(states, moves, t, key, a, b, b, answer.slot);
      NotKept(states[b].threads[t]);
    }
  }

  lemma HeldNotNil(s: State, key: int, i: nat)
    requires Inv(s) && Holds(s, key, i)
    ensures i != 0
  {
    hide OwnersOk, ThreadsOk, ChainOk;
    ChainMember(s, KeyToSlotIdx(s, key), i);
  }

  lemma HadBefore(states: seq<State>, t: nat, i: nat, a: nat, k: nat, b: nat)
    requires a < k <= b < |states| && t in states[k].threads && Own(states[k].threads[t]) == i
    ensures HasHad(states, t, i, a, b)
  {
  }

  lemma NotKept(pc: Pc)
    requires pc.Idle? && pc.last.Got? && !pc.last.constructed
    ensures !SlotKept(pc, pc.last.slot)
  {
  }

  ghost predicate NowhereLinked(s: State, key: int) {
    forall i: nat :: !LinkedAt(s, key, i)
  }

  /**
   "Constructed" is said exactly of the one step, by its own thread, before which the key was linked nowhere and after
   which it is at the slot answered with.
   */
  lemma ConstructedIsNew(states: seq<State>, moves: seq<Move>, t: nat, key: int, a: nat, b: nat, i: nat)
    requires IsCall(states, moves, t, key, a, b)
    ensures
      states[b].threads[t].last == Got(i, true) <==>
      exists j :: a <= j < b && moves[j].thread == t && NowhereLinked(states[j], key) && LinkedAt(states[j + 1], key, i)
  {
    hide Init, Next, Inv, AtCall, HasLinked, LinkedAt, Holds;
    CallRuns(states, moves, t, key, a, b, b);
    Ends(key, states[b].threads[t]);
    LinkRuns(states, moves, t, key, a, b, b, i);
    forall j | a <= j < b
      ensures Links(states[j], states[j + 1], key, i) <==> NowhereLinked(states[j], key) && LinkedAt(states[j + 1], key, i)
    {
      OneLinked(states, moves, j, key, i);
    }
  }

  lemma OneLinked(states: seq<State>, moves: seq<Move>, j: nat, key: int, i: nat)
    requires IsRun(states, moves) && j < |moves|
    ensures Links(states[j], states[j + 1], key, i) <==> NowhereLinked(states[j], key) && LinkedAt(states[j + 1], key, i)
  {
    hide IsRun, Inv, LinkedAt, Holds;
    assert |states| == |moves| + 1 by { RunLength(states, moves); }
    RunKeeps(states, moves, j);
    RunKeeps(states, moves, j + 1);
    HoldsIsLinked(states[j], key, i);
    HoldsIsLinked(states[j + 1], key, i);
    if Links(states[j], states[j + 1], key, i) {
      forall k: nat | LinkedAt(states[j], key, k)
        ensures false
      {
        LinkedForever(states, moves, j, j + 1, key, k);
        KeyLinkedOnce(states, moves, j + 1, key, i, k);
      }
    }
  }

  lemma RunLength(states: seq<State>, moves: seq<Move>)
    requires IsRun(states, moves)
    ensures |states| == |moves| + 1
  {
  }
}
