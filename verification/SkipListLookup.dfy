/**
 Looking a key up while others change the list. A lookup only reads, one link at a time, so it is a second machine that
 looks at the states of a run, at times of its own.
 */
module SkipListLookup {
  import opened SkipListState
  import opened SkipListSteps
  import opened SkipListStability
  import opened SkipListProofs
  import opened SkipListRuns

  /** ht counts the layers of pred still to be looked at; node is what pred's link at layer ht was read to be. */
  datatype Finder =
    | Enter
    | Down(pred: nat, ht: nat)
    | Right(pred: nat, layer: nat, node: Link)
    | Hit(found: nat)
    | Answer(result: Link)

  predicate Less(nodes: seq<Node>, data: int, node: Link) {
    node.To? ==> node.id < |nodes| && data < nodes[node.id].key
  }

  predicate Greater(nodes: seq<Node>, data: int, node: Link) {
    node.To? && node.id < |nodes| && nodes[node.id].key < data
  }

  predicate Readable(nodes: seq<Node>, n: nat, l: nat) {
    n < |nodes| && l < |nodes[n].skip|
  }

  /** One read of the head, of a link or of a mark. */
  predicate FindStep(sh: Shared, data: int, f: Finder, f': Finder) {
    match f
    case Enter => sh.head < |sh.nodes| && f' == Down(sh.head, |sh.nodes[sh.head].skip|)
    case Down(pred, ht) =>
      if ht == 0 then f' == Answer(Nil)
      else
        && Readable(sh.nodes, pred, ht - 1)
        && var node := sh.nodes[pred].skip[ht - 1];
           f' == if Less(sh.nodes, data, node) then Down(pred, ht - 1) else Right(pred, ht - 1, node)
    case Right(pred, layer, node) =>
      if Greater(sh.nodes, data, node) then
        Readable(sh.nodes, node.id, layer) && f' == Right(node.id, layer, sh.nodes[node.id].skip[layer])
      else if Less(sh.nodes, data, node) then f' == Down(pred, layer)
      else node.To? && f' == Hit(node.id)
    case Hit(found) =>
      found < |sh.nodes| && f' == Answer(if sh.nodes[found].marked then Nil else To(found))
    case Answer(_) => false
  }

  /** A lookup of data during a run: its k-th read happens in the state at times[k]. */
  ghost predicate IsLookup(states: seq<State>, data: int, finders: seq<Finder>, times: seq<nat>) {
    && |finders| == |times| + 1 && 0 < |times| && finders[0] == Enter
    && (forall k | 0 <= k < |times| :: times[k] < |states|)
    && (forall k | 0 < k < |times| :: times[k - 1] <= times[k])
    && (forall k | 0 <= k < |times| :: FindStep(states[times[k]].shared, data, finders[k], finders[k + 1]))
  }

  // ----- how nodes change in a run

  lemma NextGrows(s: State, t: nat, a: Action, s': State)
    requires Inv(s) && Next(s, t, a, s')
    ensures Grown(s.shared.nodes, s'.shared.nodes)
  {
    hide LayersOk, NoneLost, LocksOk, FreshApart, HeadsOk, ThreadsOk, NodesOk;
    if a.ToStorePred? {
      hide Grown;
      var pc := s.threads[t].pc;
      ReadyToLink(s, t);
      LinkNodes(s.shared, pc.preds[pc.k], pc.k, pc.node, pc.data);
    } else if a.ToGrowCopy? || a.ToGrowSwap? {
      HeadGrows(s, t, a, s');
    } else {
      OthersGrow(s, t, a, s');
    }
  }

  lemma OthersGrow(s: State, t: nat, a: Action, s': State)
    requires Next(s, t, a, s') && !a.ToStorePred? && !a.ToGrowCopy? && !a.ToGrowSwap?
    ensures Grown(s.shared.nodes, s'.shared.nodes)
  {
    hide PredValid, MaxLayer, Kept, OkToDelete, InsertAfter, Without;
  }

  lemma HeadGrows(s: State, t: nat, a: Action, s': State)
    requires NodesOk(s.shared.nodes) && ThreadsOk(s) && Next(s, t, a, s') && (a.ToGrowCopy? || a.ToGrowSwap?)
    ensures Grown(s.shared.nodes, s'.shared.nodes)
  {
    hide NodesOk, ThreadsOk;
    var th := s.threads[t];
    assert ThreadOk(s.shared, th) by { Knows(s, t); }
    if th.pc.GrowCopied? || th.pc.GrowLocked? { NodeFits(s.shared.nodes, th.pc.node); }
  }

  lemma Knows(s: State, t: nat)
    requires ThreadsOk(s) && t in s.threads
    ensures ThreadOk(s.shared, s.threads[t])
  {
  }

  lemma GrownOn(x: seq<Node>, y: seq<Node>, z: seq<Node>)
    requires Grown(x, y) && Grown(y, z)
    ensures Grown(x, z)
  {
    forall n | 0 <= n < |x|
      ensures SameNode(x[n], z[n])
    {
      assert SameNode(x[n], y[n]) && SameNode(y[n], z[n]);
    }
  }

  lemma {:induction false} RunGrows(states: seq<State>, moves: seq<Move>, i: nat, j: nat)
    requires IsRun(states, moves) && i <= j < |states|
    ensures Grown(states[i].shared.nodes, states[j].shared.nodes)
  {
    hide Inv, Next, Init, Grown;
    if i == j {
      SameGrows(states[i].shared.nodes);
    } else {
      RunGrows(states, moves, i, j - 1);
      RunKeeps(states, moves, j - 1);
      NextGrows(states[j - 1], moves[j - 1].thread, moves[j - 1].action, states[j]);
      GrownOn(states[i].shared.nodes, states[j - 1].shared.nodes, states[j].shared.nodes);
    }
  }

  lemma SameGrows(nodes: seq<Node>)
    ensures Grown(nodes, nodes)
  {
  }

  // ----- what a lookup may come across

  /** A node at one of its layers. */
  datatype Spot = Spot(layer: nat, node: nat)

  /** The list now, layer by layer, the head included. */
  function Spots(sh: Shared): set<Spot> {
    set l: nat, n: nat | l < |sh.layers| && n in [sh.head] + sh.layers[l] :: Spot(l, n)
  }

  /** All that was in the list at some time from the i-th state to the j-th. */
  function Met(states: seq<State>, i: nat, j: nat): set<Spot>
    requires i <= j < |states|
    decreases j
  {
    Spots(states[j].shared) + if i == j then {} else Met(states, i, j - 1)
  }

  /** A node that a lookup of data should find. */
  predicate Sure(nodes: seq<Node>, n: nat, data: int) {
    n < |nodes| && !nodes[n].isHead && nodes[n].full && !nodes[n].marked && nodes[n].key == data
  }

  predicate IsLeft(x: Node, data: int) {
    x.isHead || x.key < data
  }

  /** From there links lead to such places only, n is the only one with its key, and no link in n's layers passes n by. */
  predicate SpotOk(nodes: seq<Node>, g: set<Spot>, n: nat, data: int, spot: Spot) {
    && spot.node < |nodes| && n < |nodes|
    && var x, l := nodes[spot.node], spot.layer;
       && l < x.linked <= |x.skip|
       && (x.skip[l].To? ==> Spot(l, x.skip[l].id) in g)
       && (l > 0 ==> Spot(l - 1, spot.node) in g)
       && (!x.isHead && x.key == data ==> spot.node == n)
       && (l < |nodes[n].skip| && IsLeft(x, data) ==>
             x.skip[l].To? && x.skip[l].id < |nodes| && nodes[x.skip[l].id].key <= data)
  }

  ghost predicate AllOk(sh: Shared, g: set<Spot>, n: nat, data: int) {
    Spots(sh) <= g && forall spot | spot in g :: SpotOk(sh.nodes, g, n, data, spot)
  }

  /** The list itself is such a set. */
  lemma ListOk(sh: Shared, n: nat, data: int)
    requires NodesOk(sh.nodes) && LayersOk(sh) && NoneLost(sh) && Sure(sh.nodes, n, data)
    ensures AllOk(sh, Spots(sh), n, data)
  {
    var g := Spots(sh);
    HeightInList(sh, n, data);
    LayerSorted(sh, 0);
    forall spot | spot in g
      ensures SpotOk(sh.nodes, g, n, data, spot)
    {
      InListOk(sh, n, data, spot.layer, spot.node);
    }
  }

  lemma InListOk(sh: Shared, n: nat, data: int, l: nat, m: nat)
    requires NodesOk(sh.nodes) && LayersOk(sh) && Sure(sh.nodes, n, data) && InLayer(sh.layers, 0, n)
    requires forall l: nat | l < |sh.nodes[n].skip| :: InLayer(sh.layers, l, n)
    requires l < |sh.layers| && m in [sh.head] + sh.layers[l]
    ensures SpotOk(sh.nodes, Spots(sh), n, data, Spot(l, m))
  {
    hide NodesOk, LayersOk, IsSorted, IsChain;
    HeadIsHead(sh);
    LayerSorted(sh, 0);
    assert m == sh.head || InLayer(sh.layers, l, m);
    NodeFits(sh.nodes, m);
    LinkStays(sh, l, m);
    if m != sh.head {
      LowerToo(sh, l, m);
      OneOfItsKey(sh.nodes, sh.layers[0], n, m);
    }
    if l < |sh.nodes[n].skip| && IsLeft(sh.nodes[m], data) { NotPassedBy(sh, l, n, m); }
  }

  lemma NodeFits(nodes: seq<Node>, n: nat)
    requires NodesOk(nodes) && n < |nodes|
    ensures nodes[n].linked <= |nodes[n].skip|
  {
    assert NodeOk(nodes, n);
  }

  lemma LowerToo(sh: Shared, l: nat, m: nat)
    requires LayersOk(sh) && InLayer(sh.layers, l, m)
    ensures l > 0 ==> InLayer(sh.layers, l - 1, m)
    ensures InLayer(sh.layers, 0, m)
  {
  }

  /** A link of a layer's member leads to a member. */
  lemma LinkStays(sh: Shared, l: nat, m: nat)
    requires NodesOk(sh.nodes) && LayersOk(sh) && l < |sh.layers| && m in [sh.head] + sh.layers[l]
    ensures Readable(sh.nodes, m, l)
    ensures sh.nodes[m].skip[l].To? ==> sh.nodes[m].skip[l].id in sh.layers[l]
  {
    var i := if m == sh.head then 0 else IndexOf(sh.layers[l], m) + 1;
    LayerSorted(sh, l);
    assert HasLink(sh.nodes, Before(sh.head, sh.layers[l], i), l, LinkAt(sh.layers[l], i));
  }

  lemma OneOfItsKey(nodes: seq<Node>, ids: seq<nat>, n: nat, m: nat)
    requires IsSorted(nodes, ids) && n in ids && m in ids
    ensures n < |nodes| && m < |nodes| && (nodes[m].key == nodes[n].key ==> m == n)
  {
    var i, j := IndexOf(ids, n), IndexOf(ids, m);
    assert ids[i] == n && ids[j] == m;
  }

  /** In n's layers, the link of a node left of n leads to n or to a node left of n. */
  lemma NotPassedBy(sh: Shared, l: nat, n: nat, m: nat)
    requires NodesOk(sh.nodes) && LayersOk(sh) && InLayer(sh.layers, l, n) && n < |sh.nodes|
    requires (m == sh.head || m in sh.layers[l]) && m < |sh.nodes| && IsLeft(sh.nodes[m], sh.nodes[n].key)
    ensures Readable(sh.nodes, m, l) && sh.nodes[m].skip[l].To?
    ensures sh.nodes[m].skip[l].id < |sh.nodes| && sh.nodes[sh.nodes[m].skip[l].id].key <= sh.nodes[n].key
  {
    hide NodesOk;
    HeadIsHead(sh);
    LayerSorted(sh, l);
    var ids := sh.layers[l];
    var i, j := if m == sh.head then 0 else IndexOf(ids, m) + 1, IndexOf(ids, n);
    assert HasLink(sh.nodes, Before(sh.head, ids, i), l, LinkAt(ids, i));
    if m != sh.head {
      assert InLayer(sh.layers, l, m);
      KeysOrder(sh.nodes, ids, m, n);
    }
    assert i < j ==> sh.nodes[ids[i]].key < sh.nodes[ids[j]].key;
  }

  // ----- steps

  predicate SameUpTo(x: Node, y: Node) {
    && y.key == x.key && y.isHead == x.isHead && y.linked == x.linked && |y.skip| == |x.skip|
    && forall l | 0 <= l < x.linked && l < |x.skip| :: y.skip[l] == x.skip[l]
  }

  /** Nothing that is linked changes. */
  ghost predicate Quiet(sh: Shared, sh': Shared) {
    && sh'.head == sh.head && sh'.layers == sh.layers && |sh.nodes| <= |sh'.nodes|
    && forall m | 0 <= m < |sh.nodes| :: SameUpTo(sh.nodes[m], sh'.nodes[m])
  }

  lemma NextQuiet(s: State, t: nat, a: Action, s': State)
    requires ThreadsOk(s) && Next(s, t, a, s') && !a.ToStorePred? && !a.ToStoreUnlink? && !a.ToGrowSwap?
    ensures Quiet(s.shared, s'.shared)
  {
    hide ThreadsOk, PredValid, MaxLayer, Kept, OkToDelete, InsertAfter, Without,
         Neighbours, SearchedFor, KeysFit, AllValidated, VictimOk, OpOk, UnusedHead, CopiedHead;
    if a.ToStoreOwn? || a.ToGrowCopy? { Knows(s, t); }
  }

  lemma QuietOk(sh: Shared, sh': Shared, g: set<Spot>, n: nat, data: int)
    requires AllOk(sh, g, n, data) && Quiet(sh, sh')
    ensures AllOk(sh', g + Spots(sh'), n, data)
  {
    assert Spots(sh') == Spots(sh) && g + Spots(sh') == g;
    forall spot | spot in g
      ensures SpotOk(sh'.nodes, g, n, data, spot)
    {
      assert SpotOk(sh.nodes, g, n, data, spot);
      assert SameUpTo(sh.nodes[spot.node], sh'.nodes[spot.node]);
    }
  }

  lemma InsertMembers(head: nat, ids: seq<nat>, pred: nat, node: nat, m: nat)
    requires m in InsertAfter(head, ids, pred, node)
    ensures m in ids || m == node
  {
  }

  /** The spot at which a node is linked in is as good as the others. */
  lemma LinkOkToo(sh: Shared, g: set<Spot>, n: nat, data: int, pred: nat, k: nat, node: nat, key: int)
    requires NodesOk(sh.nodes) && LayersOk(sh) && NoneLost(sh) && AllOk(sh, g, n, data)
    requires CanLink(sh, pred, k, node, key) && n < |sh.nodes| && 0 < |sh.nodes[n].skip|
    requires var succ := sh.nodes[node].skip[k]; succ.To? ==> succ.id < |sh.nodes| && key < sh.nodes[succ.id].key
    ensures var sh' := LinkedIn(sh, pred, k, node); AllOk(sh', g + Spots(sh'), n, data)
  {
    hide NodesOk, LayersOk, NoneLost, Spots, SpotOk;
    var sh' := LinkedIn(sh, pred, k, node);
    var g' := g + {Spot(k, node)};
    LinkNodes(sh, pred, k, node, key);
    NodeFits(sh'.nodes, node);
    InSpots(sh, k, pred);
    if k > 0 { Linked(sh, g, node, k); }
    NewSpotOk(sh, g, n, data, pred, k, node, key);
    forall spot | spot in g
      ensures SpotOk(sh'.nodes, g', n, data, spot)
    {
      OldSpotOk(sh, g, n, data, pred, k, node, key, spot);
    }
    LinkedSpots(sh, pred, k, node);
    assert g + Spots(sh') == g';
  }

  lemma InSpots(sh: Shared, l: nat, m: nat)
    requires l < |sh.layers| && (m == sh.head || m in sh.layers[l])
    ensures Spot(l, m) in Spots(sh)
  {
  }

  lemma NewSpotOk(sh: Shared, g: set<Spot>, n: nat, data: int, pred: nat, k: nat, node: nat, key: int)
    requires CanLink(sh, pred, k, node, key) && n < |sh.nodes| && 0 < |sh.nodes[n].skip|
    requires SpotOk(sh.nodes, g, n, data, Spot(k, pred))
    requires k > 0 ==> Spot(k - 1, node) in g && SpotOk(sh.nodes, g, n, data, Spot(k - 1, node))
    requires var succ := sh.nodes[node].skip[k]; succ.To? ==> succ.id < |sh.nodes| && key < sh.nodes[succ.id].key
    ensures SpotOk(LinkedIn(sh, pred, k, node).nodes, g + {Spot(k, node)}, n, data, Spot(k, node))
  {
  }

  lemma OldSpotOk(sh: Shared, g: set<Spot>, n: nat, data: int, pred: nat, k: nat, node: nat, key: int, spot: Spot)
    requires CanLink(sh, pred, k, node, key)
    requires spot in g && SpotOk(sh.nodes, g, n, data, spot)
    requires var succ := sh.nodes[node].skip[k]; succ.To? ==> succ.id < |sh.nodes| && key < sh.nodes[succ.id].key
    ensures SpotOk(LinkedIn(sh, pred, k, node).nodes, g + {Spot(k, node)}, n, data, spot)
  {
    hide LayersOk;
  }

  lemma Linked(sh: Shared, g: set<Spot>, node: nat, k: nat)
    requires NoneLost(sh) && Spots(sh) <= g && 0 < k && node < |sh.nodes| && k == sh.nodes[node].linked
    requires !sh.nodes[node].isHead && !sh.nodes[node].marked
    ensures Spot(k - 1, node) in g
  {
    assert Present(sh, node);
    assert InLayer(sh.layers, k - 1, node);
    assert Spot(k - 1, node) in Spots(sh);
  }

  lemma LinkedSpots(sh: Shared, pred: nat, k: nat, node: nat)
    requires pred < |sh.nodes| && k < |sh.nodes[pred].skip| && node < |sh.nodes| && k < |sh.layers|
    ensures Spots(LinkedIn(sh, pred, k, node)) <= Spots(sh) + {Spot(k, node)}
    ensures Spot(k, node) in Spots(LinkedIn(sh, pred, k, node))
  {
    var sh' := LinkedIn(sh, pred, k, node);
    forall spot | spot in Spots(sh')
      ensures spot in Spots(sh) + {Spot(k, node)}
    {
      if spot.layer == k && spot.node in sh'.layers[k] { InsertMembers(sh.head, sh.layers[k], pred, node, spot.node); }
    }
    assert node in sh'.layers[k];
  }

  /** The victim of an unlinking store is not the node looked for, and its link leads to no worse a place. */
  lemma UnlinkOkToo(sh: Shared, g: set<Spot>, n: nat, data: int, pred: nat, k: nat, victim: nat)
    requires AllOk(sh, g, n, data) && Sure(sh.nodes, n, data) && CanUnlink(sh, pred, k, victim) && k < |sh.nodes[pred].skip|
    ensures var sh' := UnlinkedFrom(sh, pred, k, victim); AllOk(sh', g + Spots(sh'), n, data)
  {
    hide SpotOk;
    var sh' := UnlinkedFrom(sh, pred, k, victim);
    assert InLayer(sh.layers, k, victim);
    InSpots(sh, k, pred);
    InSpots(sh, k, victim);
    forall spot | spot in g
      ensures SpotOk(sh'.nodes, g, n, data, spot)
    {
      LeftSpotOk(sh, g, n, data, pred, k, victim, spot);
    }
    assert Spots(sh') <= Spots(sh);
    assert g + Spots(sh') == g;
  }

  lemma LeftSpotOk(sh: Shared, g: set<Spot>, n: nat, data: int, pred: nat, k: nat, victim: nat, spot: Spot)
    requires Sure(sh.nodes, n, data) && CanUnlink(sh, pred, k, victim) && k < |sh.nodes[pred].skip|
    requires spot in g && SpotOk(sh.nodes, g, n, data, spot)
    requires SpotOk(sh.nodes, g, n, data, Spot(k, pred)) && SpotOk(sh.nodes, g, n, data, Spot(k, victim))
    ensures SpotOk(UnlinkedFrom(sh, pred, k, victim).nodes, g, n, data, spot)
  {
  }

  /** A taller head has the old one's links. */
  lemma SwapOkToo(sh: Shared, g: set<Spot>, n: nat, data: int, node: nat)
    requires LayersOk(sh) && AllOk(sh, g, n, data) && PrivateHead(sh.nodes, node, sh.head) && CopiedHead(sh.nodes, node, sh.head)
    requires n < |sh.nodes| && !sh.nodes[n].isHead && |sh.nodes[n].skip| <= |sh.layers|
    ensures var sh' := Swapped(sh, node); AllOk(sh', g + Spots(sh'), n, data)
  {
    hide LayersOk, SpotOk, PrivateHead, CopiedHead, Spots;
    HeadIsHead(sh);
    HeadsDiffer(sh, node);
    var sh' := Swapped(sh, node);
    var g' := g + Spots(sh');
    forall spot | spot in g'
      ensures SpotOk(sh'.nodes, g', n, data, spot)
    {
      if spot in g {
        SwapOldOk(sh, g, n, data, node, spot);
      } else {
        SwappedSpots(sh, node, spot);
        if spot.layer < |sh.layers| { InSpots(sh, spot.layer, sh.head); }
        if spot.layer > 0 { InSpots(sh', spot.layer - 1, node); }
        SwapNewOk(sh, g, n, data, node, spot.layer);
      }
    }
  }

  lemma HeadsDiffer(sh: Shared, node: nat)
    requires PrivateHead(sh.nodes, node, sh.head) && LayersOk(sh)
    ensures node < |sh.nodes| && |sh.layers| < |sh.nodes[node].skip|
  {
  }

  lemma SwapOldOk(sh: Shared, g: set<Spot>, n: nat, data: int, node: nat, spot: Spot)
    requires node < |sh.nodes| && |sh.layers| <= |sh.nodes[node].skip|
    requires SpotOk(sh.nodes, g, n, data, spot)
    ensures SpotOk(Swapped(sh, node).nodes, g + Spots(Swapped(sh, node)), n, data, spot)
  {
    hide Spots;
  }

  lemma SwapNewOk(sh: Shared, g: set<Spot>, n: nat, data: int, node: nat, l: nat)
    requires PrivateHead(sh.nodes, node, sh.head) && CopiedHead(sh.nodes, node, sh.head)
    requires sh.head < |sh.nodes| && |sh.nodes[sh.head].skip| == |sh.layers| <= |sh.nodes[node].skip| && l < |sh.nodes[node].skip|
    requires n < |sh.nodes| && !sh.nodes[n].isHead && |sh.nodes[n].skip| <= |sh.layers|
    requires l < |sh.layers| ==> SpotOk(sh.nodes, g, n, data, Spot(l, sh.head))
    requires l > 0 ==> Spot(l - 1, node) in Spots(Swapped(sh, node))
    ensures SpotOk(Swapped(sh, node).nodes, g + Spots(Swapped(sh, node)), n, data, Spot(l, node))
  {
    hide Spots;
  }

  lemma SwappedSpots(sh: Shared, node: nat, spot: Spot)
    requires node < |sh.nodes| && |sh.layers| <= |sh.nodes[node].skip| && spot in Spots(Swapped(sh, node)) && spot !in Spots(sh)
    ensures spot.node == node && spot.layer < |sh.nodes[node].skip|
  {
  }

  lemma NextOk(s: State, t: nat, a: Action, s': State, g: set<Spot>, n: nat, data: int)
    requires Inv(s) && Next(s, t, a, s') && Sure(s.shared.nodes, n, data) && AllOk(s.shared, g, n, data)
    ensures AllOk(s'.shared, g + Spots(s'.shared), n, data)
  {
    hide NodesOk, LayersOk, NoneLost, LocksOk, FreshApart, HeadsOk, ThreadsOk, AllOk, Quiet, Sure, Neighbours, SearchedFor,
         KeysFit, AllValidated, VictimOk, OpOk, InLayer;
    HeightInList(s.shared, n, data);
    if a.ToStorePred? {
      var pc := s.threads[t].pc;
      ReadyToLink(s, t);
      RightKnown(s, t);
      LinkOkToo(s.shared, g, n, data, pc.preds[pc.k], pc.k, pc.node, pc.data);
    } else if a.ToStoreUnlink? && s.threads[t].pc.k > 0 {
      var pc := s.threads[t].pc;
      ReadyToUnlink(s, t);
      UnlinkOkToo(s.shared, g, n, data, pc.preds[pc.k - 1], pc.k - 1, pc.victim);
    } else if a.ToGrowSwap? && s.shared.head == s.threads[t].pc.oldHead {
      Knows(s, t);
      SwapOkToo(s.shared, g, n, data, s.threads[t].pc.node);
    } else {
      if a.ToStoreUnlink? || a.ToGrowSwap? { SameQuiet(s.shared); } else { NextQuiet(s, t, a, s'); }
      QuietOk(s.shared, s'.shared, g, n, data);
    }
  }

  /** A node in the list is in all the layers below its height. */
  lemma HeightInList(sh: Shared, n: nat, data: int)
    requires NodesOk(sh.nodes) && LayersOk(sh) && NoneLost(sh) && Sure(sh.nodes, n, data)
    ensures n < |sh.nodes| && 0 < |sh.nodes[n].skip| <= |sh.layers| && !sh.nodes[n].isHead
    ensures forall l: nat | l < |sh.nodes[n].skip| :: InLayer(sh.layers, l, n)
  {
    assert NodeOk(sh.nodes, n) && Present(sh, n);
    assert InLayer(sh.layers, |sh.nodes[n].skip| - 1, n);
  }

  lemma SameQuiet(sh: Shared)
    ensures Quiet(sh, sh)
  {
  }

  lemma RightKnown(s: State, t: nat)
    requires ThreadsOk(s) && t in s.threads && s.threads[t].pc.LinkIn?
    requires var pc := s.threads[t].pc; pc.stored
    ensures
      var pc, nodes := s.threads[t].pc, s.shared.nodes;
      && pc.node < |nodes| && pc.k < |nodes[pc.node].skip|
      && var succ := nodes[pc.node].skip[pc.k]; succ.To? ==> succ.id < |nodes| && pc.data < nodes[succ.id].key
  {
    hide ThreadsOk, AllValidated;
    Knows(s, t);
    var pc := s.threads[t].pc;
    assert RightOf(s.shared.nodes, pc.succs[pc.k], pc.k, pc.data, false);
  }

  // ----- runs

  lemma SureOn(nodes: seq<Node>, nodes': seq<Node>, nodes'': seq<Node>, n: nat, data: int)
    requires Grown(nodes, nodes') && Grown(nodes', nodes'') && Sure(nodes, n, data) && n < |nodes''| && !nodes''[n].marked
    ensures Sure(nodes', n, data)
  {
    assert SameNode(nodes[n], nodes'[n]) && SameNode(nodes'[n], nodes''[n]);
  }

  lemma {:induction false} RunOk(states: seq<State>, moves: seq<Move>, i: nat, j: nat, n: nat, data: int)
    requires IsRun(states, moves) && i <= j < |states| && Sure(states[i].shared.nodes, n, data)
    requires n < |states[j].shared.nodes| && !states[j].shared.nodes[n].marked
    ensures AllOk(states[j].shared, Met(states, i, j), n, data)
  {
    hide Next, Init, NodesOk, LayersOk, NoneLost, LocksOk, FreshApart, HeadsOk, ThreadsOk, AllOk, Grown, Sure, Spots;
    if i == j {
      RunKeeps(states, moves, i);
      ListOk(states[i].shared, n, data);
      assert Met(states, i, i) == Spots(states[i].shared);
    } else {
      RunKeeps(states, moves, j - 1);
      RunGrows(states, moves, i, j - 1);
      RunGrows(states, moves, j - 1, j);
      SureOn(states[i].shared.nodes, states[j - 1].shared.nodes, states[j].shared.nodes, n, data);
      StillUnmarked(states[j - 1].shared.nodes, n, data);
      RunOk(states, moves, i, j - 1, n, data);
      NextOk(states[j - 1], moves[j - 1].thread, moves[j - 1].action, states[j], Met(states, i, j - 1), n, data);
      assert Met(states, i, j) == Met(states, i, j - 1) + Spots(states[j].shared);
    }
  }

  lemma StillUnmarked(nodes: seq<Node>, n: nat, data: int)
    requires Sure(nodes, n, data)
    ensures n < |nodes| && !nodes[n].marked
  {
  }

  lemma {:induction false} MetGrows(states: seq<State>, i: nat, j: nat, k: nat)
    requires i <= j <= k < |states|
    ensures Met(states, i, j) <= Met(states, i, k)
  {
    if j < k { MetGrows(states, i, j, k - 1); }
  }

  // ----- where a lookup is

  predicate FinderOk(nodes: seq<Node>, g: set<Spot>, n: nat, data: int, f: Finder) {
    match f
    case Enter => true
    case Down(pred, ht) => 0 < ht && Spot(ht - 1, pred) in g && pred < |nodes| && IsLeft(nodes[pred], data)
    case Right(pred, layer, node) =>
      && Spot(layer, pred) in g && pred < |nodes| && IsLeft(nodes[pred], data)
      && (node.To? ==> Spot(layer, node.id) in g && node.id < |nodes| && !nodes[node.id].isHead)
      && (layer == 0 ==> node.To? && nodes[node.id].key <= data)
    case Hit(found) => found == n
    case Answer(result) => result == To(n)
  }

  lemma FinderStays(nodes: seq<Node>, nodes': seq<Node>, g: set<Spot>, g': set<Spot>, n: nat, data: int, f: Finder)
    requires Grown(nodes, nodes') && g <= g' && FinderOk(nodes, g, n, data, f)
    ensures FinderOk(nodes', g', n, data, f)
  {
    match f
    case Down(pred, _) => assert SameNode(nodes[pred], nodes'[pred]);
    case Right(pred, _, node) =>
      assert SameNode(nodes[pred], nodes'[pred]);
      if node.To? { assert SameNode(nodes[node.id], nodes'[node.id]); }
    case _ =>
  }

  /** What the link at a good place tells. */
  lemma LinkRead(sh: Shared, g: set<Spot>, n: nat, data: int, l: nat, m: nat)
    requires NodesOk(sh.nodes) && AllOk(sh, g, n, data) && Spot(l, m) in g
    ensures Readable(sh.nodes, m, l)
    ensures var x := sh.nodes[m].skip[l]; x.To? ==> Spot(l, x.id) in g && x.id < |sh.nodes| && !sh.nodes[x.id].isHead
    ensures n < |sh.nodes|
    ensures l < |sh.nodes[n].skip| && IsLeft(sh.nodes[m], data) ==>
              sh.nodes[m].skip[l].To? && sh.nodes[sh.nodes[m].skip[l].id].key <= data
    ensures l > 0 ==> Spot(l - 1, m) in g
    ensures !sh.nodes[m].isHead && sh.nodes[m].key == data ==> m == n
  {
    assert SpotOk(sh.nodes, g, n, data, Spot(l, m));
    assert NodeOk(sh.nodes, m);
    assert LinkOk(sh.nodes, m, l);
  }

  lemma FindStepOk(sh: Shared, g: set<Spot>, n: nat, data: int, f: Finder, f': Finder)
    requires NodesOk(sh.nodes) && LayersOk(sh) && AllOk(sh, g, n, data) && Sure(sh.nodes, n, data)
    requires FinderOk(sh.nodes, g, n, data, f) && FindStep(sh, data, f, f')
    ensures FinderOk(sh.nodes, g, n, data, f')
  {
    hide NodesOk, LayersOk, AllOk;
    Tall(sh.nodes, n);
    match f
    case Enter =>
      HeadIsHead(sh);
      NodeFits(sh.nodes, sh.head);
      HeadTall(sh, g, n, data);
    case Down(pred, ht) => LinkRead(sh, g, n, data, ht - 1, pred);
    case Right(pred, layer, node) =>
      LinkRead(sh, g, n, data, layer, pred);
      if node.To? { LinkRead(sh, g, n, data, layer, node.id); }
    case _ =>
  }

  lemma Tall(nodes: seq<Node>, n: nat)
    requires NodesOk(nodes) && n < |nodes|
    ensures 0 < |nodes[n].skip|
  {
    assert NodeOk(nodes, n);
  }

  lemma HeadTall(sh: Shared, g: set<Spot>, n: nat, data: int)
    requires NodesOk(sh.nodes) && LayersOk(sh) && AllOk(sh, g, n, data)
    ensures 0 < |sh.layers| == |sh.nodes[sh.head].skip| && Spot(|sh.layers| - 1, sh.head) in g
  {
    assert NodeOk(sh.nodes, sh.head);
    InSpots(sh, |sh.layers| - 1, sh.head);
  }

  lemma {:induction false} TimesOrdered(times: seq<nat>, a: nat, b: nat)
    requires forall k | 0 < k < |times| :: times[k - 1] <= times[k]
    requires a <= b < |times|
    ensures times[a] <= times[b]
  {
    if a < b { TimesOrdered(times, a, b - 1); }
  }

  lemma LookupStepOk(states: seq<State>, moves: seq<Move>, data: int, finders: seq<Finder>, times: seq<nat>, n: nat, k: nat)
    requires IsRun(states, moves) && IsLookup(states, data, finders, times) && k < |times| && times[0] <= times[k]
    requires Sure(states[times[0]].shared.nodes, n, data)
    requires n < |states[times[k]].shared.nodes| && !states[times[k]].shared.nodes[n].marked
    requires FinderOk(states[times[k]].shared.nodes, Met(states, times[0], times[k]), n, data, finders[k])
    ensures FinderOk(states[times[k]].shared.nodes, Met(states, times[0], times[k]), n, data, finders[k + 1])
  {
    hide Inv, Next, Init, AllOk, Grown, Sure, FindStep, FinderOk, IsRun;
    RunOk(states, moves, times[0], times[k], n, data);
    RunKeeps(states, moves, times[k]);
    RunGrows(states, moves, times[0], times[k]);
    SureLater(states[times[0]].shared.nodes, states[times[k]].shared.nodes, n, data);
    Sound(states[times[k]]);
    FindStepOk(states[times[k]].shared, Met(states, times[0], times[k]), n, data, finders[k], finders[k + 1]);
  }

  lemma SureLater(nodes: seq<Node>, nodes': seq<Node>, n: nat, data: int)
    requires Grown(nodes, nodes') && Sure(nodes, n, data) && n < |nodes'| && !nodes'[n].marked
    ensures Sure(nodes', n, data)
  {
    assert SameNode(nodes[n], nodes'[n]);
  }

  lemma Sound(s: State)
    requires Inv(s)
    ensures NodesOk(s.shared.nodes) && LayersOk(s.shared) && NoneLost(s.shared)
  {
  }

  lemma UnmarkedBefore(nodes: seq<Node>, nodes': seq<Node>, n: nat)
    requires Grown(nodes, nodes') && n < |nodes| && !nodes'[n].marked
    ensures !nodes[n].marked
  {
    assert SameNode(nodes[n], nodes'[n]);
  }

  lemma {:induction false} LookupOk(states: seq<State>, moves: seq<Move>, data: int, finders: seq<Finder>, times: seq<nat>,
                                    n: nat, k: nat)
    requires IsRun(states, moves) && IsLookup(states, data, finders, times) && k < |times|
    requires Sure(states[times[0]].shared.nodes, n, data)
    requires n < |states[times[k]].shared.nodes| && !states[times[k]].shared.nodes[n].marked
    ensures times[0] <= times[k]
    ensures FinderOk(states[times[k]].shared.nodes, Met(states, times[0], times[k]), n, data, finders[k + 1])
  {
    hide Grown, Sure, FinderOk, FindStep, IsRun;
    TimesOrdered(times, 0, k);
    if k == 0 {
      StartsOk(states[times[0]].shared.nodes, Met(states, times[0], times[0]), n, data);
    } else {
      TimesOrdered(times, 0, k - 1);
      StillUnmarked(states[times[0]].shared.nodes, n, data);
      var before, now := states[times[k - 1]].shared.nodes, states[times[k]].shared.nodes;
      RunGrows(states, moves, times[0], times[k - 1]);
      RunGrows(states, moves, times[k - 1], times[k]);
      GrownLength(states[times[0]].shared.nodes, before);
      UnmarkedBefore(before, now, n);
      LookupOk(states, moves, data, finders, times, n, k - 1);
      MetGrows(states, times[0], times[k - 1], times[k]);
      FinderStays(before, now, Met(states, times[0], times[k - 1]), Met(states, times[0], times[k]), n, data, finders[k]);
    }
    LookupStepOk(states, moves, data, finders, times, n, k);
  }

  lemma GrownLength(nodes: seq<Node>, nodes': seq<Node>)
    requires Grown(nodes, nodes')
    ensures |nodes| <= |nodes'|
  {
  }

  lemma StartsOk(nodes: seq<Node>, g: set<Spot>, n: nat, data: int)
    ensures FinderOk(nodes, g, n, data, Enter)
  {
  }

  /**
   A lookup whose key is in a fully linked node when it begins, and that node not marked when it ends, answers with that
   node, whatever is added, removed or grown meanwhile and however far what it stands on has been taken out of the list.
   */
  lemma LookupFinds(states: seq<State>, moves: seq<Move>, data: int, finders: seq<Finder>, times: seq<nat>, n: nat)
    requires IsRun(states, moves) && IsLookup(states, data, finders, times) && finders[|times|].Answer?
    requires Sure(states[times[0]].shared.nodes, n, data)
    requires
      var last := states[times[|times| - 1]].shared.nodes;
      n < |last| && !last[n].marked
    ensures finders[|times|] == Answer(To(n))
  {
    LookupOk(states, moves, data, finders, times, n, |times| - 1);
  }

  /** The step that marks a node leaves all others as they are. */
  lemma MarksOne(s: State, t: nat, a: Action, s': State, n: nat, m: nat)
    requires Next(s, t, a, s') && n < |s.shared.nodes| && !s.shared.nodes[n].marked
    requires n < |s'.shared.nodes| && s'.shared.nodes[n].marked && m != n && m < |s'.shared.nodes|
    ensures m < |s.shared.nodes| && s'.shared.nodes[m] == s.shared.nodes[m]
  {
    hide PredValid, MaxLayer, Kept, OkToDelete, InsertAfter, Without, Nils;
  }

  ghost predicate NobodySure(nodes: seq<Node>, data: int) {
    forall n: nat :: !Sure(nodes, n, data)
  }

  /** When a node that holds a key is marked, nobody holds the key. */
  lemma {:induction false} GoneSometime(states: seq<State>, moves: seq<Move>, i: nat, j: nat, n: nat, data: int) returns (k: nat)
    requires IsRun(states, moves) && i <= j < |states| && Sure(states[i].shared.nodes, n, data)
    requires n < |states[j].shared.nodes| && states[j].shared.nodes[n].marked
    ensures i < k <= j && NobodySure(states[k].shared.nodes, data)
  {
    hide Inv, Next, Init, Grown;
    if i == j { return j; }
    RunGrows(states, moves, i, j - 1);
    GrownLength(states[i].shared.nodes, states[j - 1].shared.nodes);
    if states[j - 1].shared.nodes[n].marked {
      k := GoneSometime(states, moves, i, j - 1, n, data);
      return;
    }
    SureLater(states[i].shared.nodes, states[j - 1].shared.nodes, n, data);
    k := j;
    forall m: nat
      ensures !Sure(states[j].shared.nodes, m, data)
    {
      if Sure(states[j].shared.nodes, m, data) {
        MarksOne(states[j - 1], moves[j - 1].thread, moves[j - 1].action, states[j], n, m);
        KeysUnique(states, moves, j - 1, m, n);
      }
    }
  }

  /** A lookup that answers with nothing overlaps a state in which no fully linked unmarked node held the key. */
  lemma MissIsRight(states: seq<State>, moves: seq<Move>, data: int, finders: seq<Finder>, times: seq<nat>) returns (k: nat)
    requires IsRun(states, moves) && IsLookup(states, data, finders, times) && finders[|times|] == Answer(Nil)
    ensures times[0] <= k <= times[|times| - 1] && k < |states| && NobodySure(states[k].shared.nodes, data)
  {
    hide IsRun, Grown, FindStep;
    var last := |times| - 1;
    TimesOrdered(times, 0, last);
    k := times[0];
    if !NobodySure(states[k].shared.nodes, data) {
      var n: nat :| Sure(states[k].shared.nodes, n, data);
      RunGrows(states, moves, k, times[last]);
      GrownLength(states[k].shared.nodes, states[times[last]].shared.nodes);
      if !states[times[last]].shared.nodes[n].marked { LookupFinds(states, moves, data, finders, times, n); }
      k := GoneSometime(states, moves, k, times[last], n, data);
    }
  }

  // ----- what an answer means

  /** What a lookup stands on or has hit, whatever the list was like before. */
  predicate FinderSound(nodes: seq<Node>, data: int, f: Finder) {
    match f
    case Enter => true
    case Down(pred, ht) => pred < |nodes| && ht <= nodes[pred].linked
    case Right(pred, layer, node) =>
      && pred < |nodes| && layer < nodes[pred].linked
      && (node.To? ==> node.id < |nodes| && !nodes[node.id].isHead && layer < nodes[node.id].linked)
    case Hit(found) => found < |nodes| && !nodes[found].isHead && nodes[found].linked > 0 && nodes[found].key == data
    case Answer(_) => true
  }

  lemma SoundStays(nodes: seq<Node>, nodes': seq<Node>, data: int, f: Finder)
    requires Grown(nodes, nodes') && FinderSound(nodes, data, f)
    ensures FinderSound(nodes', data, f)
  {
    match f
    case Down(pred, _) => assert SameNode(nodes[pred], nodes'[pred]);
    case Right(pred, _, node) =>
      assert SameNode(nodes[pred], nodes'[pred]);
      if node.To? { assert SameNode(nodes[node.id], nodes'[node.id]); }
    case Hit(found) => assert SameNode(nodes[found], nodes'[found]);
    case _ =>
  }

  lemma StepSound(sh: Shared, data: int, f: Finder, f': Finder)
    requires NodesOk(sh.nodes) && LayersOk(sh) && FinderSound(sh.nodes, data, f) && FindStep(sh, data, f, f')
    ensures FinderSound(sh.nodes, data, f')
  {
    hide LayersOk;
    HeadIsHead(sh);
    match f
    case Down(pred, ht) =>
      if ht > 0 {
        assert NodeOk(sh.nodes, pred);
        assert LinkOk(sh.nodes, pred, ht - 1);
      }
    case Right(pred, layer, node) =>
      if Greater(sh.nodes, data, node) {
        assert NodeOk(sh.nodes, node.id);
        assert LinkOk(sh.nodes, node.id, layer);
      }
    case _ =>
  }

  lemma {:induction false} LookupSound(states: seq<State>, moves: seq<Move>, data: int, finders: seq<Finder>, times: seq<nat>, k: nat)
    requires IsRun(states, moves) && IsLookup(states, data, finders, times) && k < |times|
    ensures FinderSound(states[times[k]].shared.nodes, data, finders[k])
  {
    hide IsRun, Inv, Grown, FindStep;
    if k > 0 {
      LookupSound(states, moves, data, finders, times, k - 1);
      RunKeeps(states, moves, times[k - 1]);
      Sound(states[times[k - 1]]);
      StepSound(states[times[k - 1]].shared, data, finders[k - 1], finders[k]);
      RunGrows(states, moves, times[k - 1], times[k]);
      SoundStays(states[times[k - 1]].shared.nodes, states[times[k]].shared.nodes, data, finders[k]);
    }
  }

  /** A node that a lookup answers with holds the key and, when its mark was read, was in the list. */
  lemma AnswerIsInList(states: seq<State>, moves: seq<Move>, data: int, finders: seq<Finder>, times: seq<nat>, n: nat, ids: seq<nat>)
    requires IsRun(states, moves) && IsLookup(states, data, finders, times) && finders[|times|] == Answer(To(n))
    requires var last := states[times[|times| - 1]].shared; IsChain(last.nodes, last.head, 0, ids)
    ensures
      var nodes := states[times[|times| - 1]].shared.nodes;
      n in ids && n < |nodes| && !nodes[n].isHead && !nodes[n].marked && nodes[n].key == data
  {
    hide IsRun;
    var j := times[|times| - 1];
    LookupSound(states, moves, data, finders, times, |times| - 1);
    assert FindStep(states[j].shared, data, finders[|times| - 1], finders[|times|]);
    RunKeeps(states, moves, j);
    LayersSorted(states, moves, j, 0, ids);
    assert Present(states[j].shared, n);
    assert InLayer(states[j].shared.layers, 0, n);
  }

  /** Every lookup that has not answered can read on: it never waits. */
  lemma LookupGoesOn(states: seq<State>, moves: seq<Move>, data: int, finders: seq<Finder>, times: seq<nat>, j: nat)
    requires IsRun(states, moves) && IsLookup(states, data, finders, times) && times[|times| - 1] <= j < |states|
    requires !finders[|times|].Answer?
    ensures exists f: Finder :: FindStep(states[j].shared, data, finders[|times|], f)
  {
    hide IsRun, Grown;
    var i, f := times[|times| - 1], finders[|times|];
    LookupSound(states, moves, data, finders, times, |times| - 1);
    RunKeeps(states, moves, i);
    RunKeeps(states, moves, j);
    StepSound(states[i].shared, data, finders[|times| - 1], f);
    RunGrows(states, moves, i, j);
    SoundStays(states[i].shared.nodes, states[j].shared.nodes, data, f);
    CanRead(states[j].shared, data, f);
  }

  lemma CanRead(sh: Shared, data: int, f: Finder)
    requires NodesOk(sh.nodes) && LayersOk(sh) && FinderSound(sh.nodes, data, f) && !f.Answer?
    ensures exists f': Finder :: FindStep(sh, data, f, f')
  {
    hide LayersOk;
    HeadIsHead(sh);
    match f
    case Enter => assert FindStep(sh, data, f, Down(sh.head, |sh.nodes[sh.head].skip|));
    case Down(pred, ht) =>
      if ht == 0 {
        assert FindStep(sh, data, f, Answer(Nil));
      } else {
        assert NodeOk(sh.nodes, pred);
        var node := sh.nodes[pred].skip[ht - 1];
        assert FindStep(sh, data, f, if Less(sh.nodes, data, node) then Down(pred, ht - 1) else Right(pred, ht - 1, node));
      }
    case Right(pred, layer, node) =>
      if Greater(sh.nodes, data, node) {
        assert NodeOk(sh.nodes, node.id);
        assert FindStep(sh, data, f, Right(node.id, layer, sh.nodes[node.id].skip[layer]));
      } else if Less(sh.nodes, data, node) {
        assert FindStep(sh, data, f, Down(pred, layer));
      } else {
        assert FindStep(sh, data, f, Hit(node.id));
      }
    case Hit(found) => assert FindStep(sh, data, f, Answer(if sh.nodes[found].marked then Nil else To(found)));
  }
}
