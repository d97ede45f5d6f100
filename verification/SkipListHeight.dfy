/** What a call of growHeight has done when it is over. */
module SkipListHeight {
  import opened SkipListState
  import opened SkipListSteps
  import opened SkipListStability
  import opened SkipListProofs
  import opened SkipListRuns
  import opened SkipListLookup
  import opened SkipListCalls

  /** The head's height. */
  function Height(s: State): nat {
    if s.shared.head < |s.shared.nodes| then |s.shared.nodes[s.shared.head].skip| else 0
  }

  /** The head is the same, or taller. */
  predicate Rises(s: State, s': State) {
    Height(s) <= Height(s') && (s'.shared.head != s.shared.head ==> Height(s) < Height(s'))
  }

  lemma NextRises(s: State, t: nat, act: Action, s': State)
    requires Inv(s) && Next(s, t, act, s')
    ensures Rises(s, s')
  {
    hide NodesOk, LayersOk, NoneLost, LocksOk, FreshApart, HeadsOk, ThreadsOk, Grown;
    HeadIsHead(s.shared);
    if act.ToGrowSwap? {
      Knows(s, t);
    } else {
      hide Inv;
      NextGrows(s, t, act, s');
      SameHead(s, t, act, s');
      SameSkip(s, s');
    }
  }

  lemma SameHead(s: State, t: nat, act: Action, s': State)
    requires Next(s, t, act, s') && !act.ToGrowSwap?
    ensures s'.shared.head == s.shared.head
  {
    hide PredValid, MaxLayer, Kept, OkToDelete, InsertAfter, Without, Nils, FreeAll, SetSkip, NewHeadOrNode;
  }

  lemma SameSkip(s: State, s': State)
    requires Grown(s.shared.nodes, s'.shared.nodes) && s'.shared.head == s.shared.head < |s.shared.nodes|
    ensures Height(s') == Height(s)
  {
    assert SameNode(s.shared.nodes[s.shared.head], s'.shared.nodes[s.shared.head]);
  }

  lemma {:induction false} RunRises(states: seq<State>, moves: seq<Move>, i: nat, j: nat)
    requires IsRun(states, moves) && i <= j < |states|
    ensures Rises(states[i], states[j])
  {
    hide Inv, Next, Init, Height;
    if i < j {
      RunRises(states, moves, i, j - 1);
      RunKeeps(states, moves, j - 1);
      NextRises(states[j - 1], moves[j - 1].thread, moves[j - 1].action, states[j]);
    }
  }

  /** Thread t begins to replace the head by one of the given height with the a-th move, and is done in the b-th state. */
  ghost predicate IsGrow(states: seq<State>, moves: seq<Move>, t: nat, height: nat, a: nat, b: nat) {
    && IsRun(states, moves) && a < b < |states| && moves[a] == Move(t, ToGrowStart(height))
    && (forall i | a < i < b :: t in states[i].threads && !states[i].threads[t].pc.Idle?)
    && t in states[b].threads && states[b].threads[t].pc.Idle?
  }

  /** t found the head replaced when it came to publish its own. */
  ghost predicate TooLate(states: seq<State>, moves: seq<Move>, t: nat, a: nat, j: nat)
    requires a <= j < |states| == |moves| + 1
  {
    exists i :: a < i < j && moves[i] == Move(t, ToGrowSwap) && states[i].shared.head != states[a].shared.head
  }

  predicate GrowerOk(s: State, pc: Pc, head: nat, height: nat, late: bool) {
    match pc
    case Grow(oldHead, node) => oldHead == head && Tall(s, node, height)
    case GrowLocked(oldHead, node) => oldHead == head && Tall(s, node, height)
    case GrowCopied(oldHead, node) => oldHead == head && Tall(s, node, height)
    case GrowSwapped(_) => height <= Height(s)
    case Finish(_) => height <= Height(s) || late
    case Idle(_) => height <= Height(s) || late
    case _ => false
  }

  predicate Tall(s: State, n: nat, height: nat) {
    n < |s.shared.nodes| && |s.shared.nodes[n].skip| == height
  }

  lemma GrowerStep(s: State, t: nat, act: Action, s': State, head: nat, height: nat, late: bool)
    requires Inv(s) && Next(s, t, act, s') && t in s.threads && !s.threads[t].pc.Idle?
    requires GrowerOk(s, s.threads[t].pc, head, height, late) && Grown(s.shared.nodes, s'.shared.nodes) && Height(s) <= Height(s')
    ensures t in s'.threads
    ensures GrowerOk(s', s'.threads[t].pc, head, height, late || (act.ToGrowSwap? && s.shared.head != head))
  {
    hide NodesOk, LayersOk, NoneLost, LocksOk, FreshApart, HeadsOk, ThreadsOk, Grown, PredValid, MaxLayer, Kept, OkToDelete, InsertAfter,
         Without, Nils;
    Knows(s, t);
    StaysTall(s, s', height);
  }

  lemma StaysTall(s: State, s': State, height: nat)
    requires Grown(s.shared.nodes, s'.shared.nodes)
    ensures forall n: nat :: Tall(s, n, height) ==> Tall(s', n, height)
  {
    forall n: nat | Tall(s, n, height)
      ensures Tall(s', n, height)
    {
      assert SameNode(s.shared.nodes[n], s'.shared.nodes[n]);
    }
  }

  lemma GrowerStays(s: State, s': State, pc: Pc, head: nat, height: nat, late: bool, late': bool)
    requires GrowerOk(s, pc, head, height, late) && Grown(s.shared.nodes, s'.shared.nodes) && Height(s) <= Height(s')
    requires late ==> late'
    ensures GrowerOk(s', pc, head, height, late')
  {
    StaysTall(s, s', height);
  }

  lemma GrowStarts(s: State, t: nat, s': State, height: nat)
    requires Next(s, t, ToGrowStart(height), s')
    ensures t in s'.threads && GrowerOk(s', s'.threads[t].pc, s.shared.head, height, false) && Height(s) < height
  {
  }

  lemma LateOn(states: seq<State>, moves: seq<Move>, t: nat, a: nat, j: nat)
    requires a < j < |moves| && |states| == |moves| + 1
    ensures
      TooLate(states, moves, t, a, j + 1) <==>
      TooLate(states, moves, t, a, j) || (moves[j] == Move(t, ToGrowSwap) && states[j].shared.head != states[a].shared.head)
  {
  }

  lemma {:induction false} GrowerRuns(states: seq<State>, moves: seq<Move>, t: nat, height: nat, a: nat, b: nat, j: nat)
    requires IsGrow(states, moves, t, height, a, b) && a < j <= b
    ensures t in states[j].threads && Height(states[a]) < height
    ensures GrowerOk(states[j], states[j].threads[t].pc, states[a].shared.head, height, TooLate(states, moves, t, a, j))
  {
    hide Next, Init, Inv, GrowerOk, Height, TooLate, Grown;
    var head := states[a].shared.head;
    GrowStarts(states[a], t, states[a + 1], height);
    if j == a + 1 {
      GrowerStays(states[j], states[j], states[j].threads[t].pc, head, height, false, TooLate(states, moves, t, a, j)) by {
        SameGrows(states[j].shared.nodes);
      }
    } else {
      var i := j - 1;
      GrowerRuns(states, moves, t, height, a, b, i);
      RunKeeps(states, moves, i);
      RunGrows(states, moves, i, j);
      RunRises(states, moves, i, j);
      LateOn(states, moves, t, a, i);
      var u, late := moves[i].thread, TooLate(states, moves, t, a, i);
      if u == t {
        GrowerStep(states[i], t, moves[i].action, states[j], head, height, late);
      } else {
        OthersLeave(states[i], u, moves[i].action, states[j], t);
        GrowerStays(states[i], states[j], states[j].threads[t].pc, head, height, late, TooLate(states, moves, t, a, j));
      }
    }
  }

  /**
   When growHeight is done the head is taller than when it began, and at least as tall as was asked for unless somebody
   else had replaced the head first.
   */
  lemma GrowGrows(states: seq<State>, moves: seq<Move>, t: nat, height: nat, a: nat, b: nat)
    requires IsGrow(states, moves, t, height, a, b)
    ensures Height(states[a]) < Height(states[b])
    ensures height <= Height(states[b]) || TooLate(states, moves, t, a, b)
  {
    hide Next, Init, Height;
    GrowerRuns(states, moves, t, height, a, b, b);
    if TooLate(states, moves, t, a, b) {
      var i :| a < i < b && moves[i] == Move(t, ToGrowSwap) && states[i].shared.head != states[a].shared.head;
      RunRises(states, moves, a, i);
      RunRises(states, moves, i, b);
    }
  }
}
