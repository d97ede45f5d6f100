/** What the invariant says about the lists that links alone describe, in every state of every run. */
module SkipListRuns {
  import opened SkipListState
  import opened SkipListSteps
  import opened SkipListProofs

  datatype Move = Move(thread: nat, action: Action)

  predicate IsRun(states: seq<State>, moves: seq<Move>) {
    && |states| == |moves| + 1 && Init(states[0])
    && forall i | 0 <= i < |moves| :: Next(states[i], moves[i].thread, moves[i].action, states[i + 1])
  }

  lemma {:induction false} RunKeeps(states: seq<State>, moves: seq<Move>, i: nat)
    requires IsRun(states, moves) && i < |states|
    ensures Inv(states[i])
  {
    hide Inv, Next, Init;
    if i == 0 {
      InitHolds(states[0]);
    } else {
      RunKeeps(states, moves, i - 1);
      NextKeeps(states[i - 1], moves[i - 1].thread, moves[i - 1].action, states[i]);
    }
  }

  /** The links of a layer describe one list and no other. */
  lemma {:induction false} ChainUnique(nodes: seq<Node>, head: nat, l: nat, ids: seq<nat>, ids': seq<nat>, i: nat)
    requires IsChain(nodes, head, l, ids) && IsChain(nodes, head, l, ids') && i <= |ids|
    ensures i <= |ids'| && ids[..i] == ids'[..i]
    ensures i == |ids| ==> ids == ids'
  {
    if i > 0 {
      ChainUnique(nodes, head, l, ids, ids', i - 1);
      assert HasLink(nodes, Before(head, ids, i - 1), l, LinkAt(ids, i - 1));
      assert HasLink(nodes, Before(head, ids', i - 1), l, LinkAt(ids', i - 1));
      if i > 1 { assert ids[i - 2] == ids[..i - 1][i - 2] == ids'[..i - 1][i - 2] == ids'[i - 2]; }
      assert ids[..i] == ids[..i - 1] + [ids[i - 1]] && ids'[..i] == ids'[..i - 1] + [ids'[i - 1]];
    }
    if i == |ids| {
      assert HasLink(nodes, Before(head, ids, i), l, LinkAt(ids, i));
      assert HasLink(nodes, Before(head, ids', i), l, LinkAt(ids', i));
      if i > 0 { assert ids[i - 1] == ids[..i][i - 1] == ids'[..i][i - 1] == ids'[i - 1]; }
      assert ids == ids[..i];
    }
  }

  /** Whatever list the links of a layer describe, it is strictly sorted. */
  lemma LayersSorted(states: seq<State>, moves: seq<Move>, i: nat, l: nat, ids: seq<nat>)
    requires IsRun(states, moves) && i < |states|
    requires IsChain(states[i].shared.nodes, states[i].shared.head, l, ids)
    ensures IsSorted(states[i].shared.nodes, ids) && l < |states[i].shared.layers| && ids == states[i].shared.layers[l]
  {
    RunKeeps(states, moves, i);
    var sh := states[i].shared;
    HeadIsHead(sh);
    assert HasLink(sh.nodes, Before(sh.head, ids, 0), l, LinkAt(ids, 0));
    LayerSorted(sh, l);
    ChainUnique(sh.nodes, sh.head, l, ids, sh.layers[l], |ids|);
  }

  /** Every layer describes some list. */
  lemma LayersExist(states: seq<State>, moves: seq<Move>, i: nat, l: nat)
    requires IsRun(states, moves) && i < |states|
    requires states[i].shared.head < |states[i].shared.nodes| && l < |states[i].shared.nodes[states[i].shared.head].skip|
    ensures exists ids :: IsChain(states[i].shared.nodes, states[i].shared.head, l, ids)
  {
    RunKeeps(states, moves, i);
    var sh := states[i].shared;
    HeadIsHead(sh);
    assert IsChain(sh.nodes, sh.head, l, sh.layers[l]);
  }

  /** ids keeps, in its own order, only elements of all. */
  ghost predicate IsSubsequence(ids: seq<nat>, all: seq<nat>) {
    && (forall i | 0 <= i < |ids| :: ids[i] in all)
    && (forall i, j | 0 <= i < j < |ids| :: IndexOf(all, ids[i]) < IndexOf(all, ids[j]))
  }

  /** Each upper layer is a subsequence of every layer below it. */
  lemma LayersNest(states: seq<State>, moves: seq<Move>, i: nat, l: nat, m: nat, lower: seq<nat>, upper: seq<nat>)
    requires IsRun(states, moves) && i < |states| && l < m
    requires IsChain(states[i].shared.nodes, states[i].shared.head, l, lower)
    requires IsChain(states[i].shared.nodes, states[i].shared.head, m, upper)
    ensures IsSubsequence(upper, lower)
  {
    LayersSorted(states, moves, i, l, lower);
    LayersSorted(states, moves, i, m, upper);
    RunKeeps(states, moves, i);
    var sh := states[i].shared;
    forall a | 0 <= a < |upper|
      ensures upper[a] in lower
    {
      assert InLayer(sh.layers, m, upper[a]);
      assert InLayer(sh.layers, l, upper[a]);
    }
    forall a, b | 0 <= a < b < |upper|
      ensures IndexOf(lower, upper[a]) < IndexOf(lower, upper[b])
    {
      KeysOrder(sh.nodes, lower, upper[a], upper[b]);
    }
  }

  lemma KeysOrder(nodes: seq<Node>, ids: seq<nat>, a: nat, b: nat)
    requires IsSorted(nodes, ids) && a in ids && b in ids && a < |nodes| && b < |nodes| && nodes[a].key < nodes[b].key
    ensures IndexOf(ids, a) < IndexOf(ids, b)
  {
    var i, j := IndexOf(ids, a), IndexOf(ids, b);
    assert i != j;
  }

  /** A fully linked node that is not marked is in every layer below its height. */
  lemma NeverLost(states: seq<State>, moves: seq<Move>, i: nat, n: nat, l: nat, ids: seq<nat>)
    requires IsRun(states, moves) && i < |states| && n < |states[i].shared.nodes|
    requires
      var x := states[i].shared.nodes[n];
      !x.isHead && x.full && !x.marked && l < |x.skip|
    requires IsChain(states[i].shared.nodes, states[i].shared.head, l, ids)
    ensures n in ids
  {
    RunKeeps(states, moves, i);
    LayersSorted(states, moves, i, l, ids);
    assert NodeOk(states[i].shared.nodes, n) && Present(states[i].shared, n);
    assert InLayer(states[i].shared.layers, l, n);
  }

  /** Two fully linked unmarked nodes never hold the same key. */
  lemma KeysUnique(states: seq<State>, moves: seq<Move>, i: nat, a: nat, b: nat)
    requires IsRun(states, moves) && i < |states| && a < |states[i].shared.nodes| && b < |states[i].shared.nodes|
    requires
      var x, y := states[i].shared.nodes[a], states[i].shared.nodes[b];
      && !x.isHead && x.full && !x.marked && !y.isHead && y.full && !y.marked && x.key == y.key
    ensures a == b
  {
    RunKeeps(states, moves, i);
    var sh := states[i].shared;
    assert NodeOk(sh.nodes, a) && Present(sh, a) && NodeOk(sh.nodes, b) && Present(sh, b);
    assert InLayer(sh.layers, 0, a) && InLayer(sh.layers, 0, b);
    LayerSorted(sh, 0);
    assert IndexOf(sh.layers[0], a) == IndexOf(sh.layers[0], b);
  }
}
