/** A call that runs while all other threads rest comes to its end, within a number of steps known when it is left alone. */
module SkipListAlone {
  import opened SkipListState
  import opened SkipListSteps
  import opened SkipListStability
  import opened SkipListProofs
  import opened SkipListRuns
  import opened SkipListLookup
  import opened SkipListOrder
  import opened SkipListProgress
  import opened SkipListCalls

  // ----- a marked node that is still in a layer is being taken out by somebody

  /** The marked node that the thread is to take out of its layers. */
  function Removing(pc: Pc): Link {
    match pc
    case Begin(op, _, _) => Victim(op)
    case Search(op, _, _, _, _, _, _, _, _) => Victim(op)
    case Chosen(op, _, _, _, _, _) => Victim(op)
    case Lock(op, _, _, _, _, _) => Victim(op)
    case Check(op, _, _, _, _, _) => Victim(op)
    case Unlink(_, victim, _, _, _) => To(victim)
    case _ => Nil
  }

  /** Somewhere in the list although marked. */
  predicate Lingers(sh: Shared, l: nat, n: nat) {
    InLayer(sh.layers, l, n) && n < |sh.nodes| && sh.nodes[n].marked
  }

  ghost predicate LingersInHands(s: State, l: nat, n: nat) {
    Lingers(s.shared, l, n) ==> exists u: nat :: u in s.threads && Removing(s.threads[u].pc) == To(n)
  }

  ghost predicate AllInHands(s: State) {
    forall l: nat, n: nat :: LingersInHands(s, l, n)
  }

  /** Only a node that is being linked in gets into a layer. */
  lemma LayersStep(s: State, t: nat, a: Action, s': State, l: nat, n: nat)
    requires Next(s, t, a, s') && t in s.threads && InLayer(s'.shared.layers, l, n)
    ensures InLayer(s.shared.layers, l, n) || (a.ToStorePred? && s.threads[t].pc.LinkIn? && s.threads[t].pc.node == n)
  {
    hide PredValid, MaxLayer, Kept, OkToDelete, FreeAll, SetSkip, NewHeadOrNode, Nils, InsertAfter, Without;
    if a.ToStorePred? {
      var pc := s.threads[t].pc;
      if l == pc.k && InLayer(s'.shared.layers, l, n) {
        InsertMembers(s.shared.head, s.shared.layers[l], pc.preds[l], pc.node, n);
      }
    } else if a.ToStoreUnlink? {
      var pc := s.threads[t].pc;
      if pc.k > 0 && l == pc.k - 1 { WithoutKeeps(s.shared.layers[l], pc.victim, n); }
    }
  }

  lemma WithoutKeeps(ids: seq<nat>, victim: nat, n: nat)
    ensures n in Without(ids, victim) ==> n in ids
  {
  }

  lemma MarkStep(s: State, t: nat, a: Action, s': State, n: nat)
    requires Next(s, t, a, s') && t in s.threads && t in s'.threads && n < |s.shared.nodes| <= |s'.shared.nodes|
    requires !s.shared.nodes[n].marked && s'.shared.nodes[n].marked
    ensures (a.ToMarkVictim? && Removing(s'.threads[t].pc) == To(n)) || a.ToGrowMark? || a.ToGrowCopy?
  {
    hide PredValid, MaxLayer, Kept, OkToDelete, InsertAfter, Without, Nils;
  }

  /** Whoever is to take a node out goes on until it is out of all layers. */
  lemma RemovingStep(s: State, t: nat, a: Action, s': State, n: nat)
    requires Next(s, t, a, s') && t in s.threads && Removing(s.threads[t].pc) == To(n)
    requires s.threads[t].pc.Check? ==> !s.threads[t].pc.op.Remove?
    ensures t in s'.threads
    ensures Removing(s'.threads[t].pc) == To(n) || (s.threads[t].pc.Unlink? && s.threads[t].pc.k == 0 && s'.shared == s.shared)
  {
    hide PredValid, MaxLayer, Kept, OkToDelete, FreeAll, SetSkip, NewHeadOrNode, Nils, InsertAfter, Without;
  }

  lemma NextInHands(s: State, t: nat, a: Action, s': State, l: nat, n: nat)
    requires Inv(s) && Inv(s') && LingersInHands(s, l, n) && Next(s, t, a, s')
    ensures LingersInHands(s', l, n)
  {
    hide Inv, Next, Lingers, Removing, Grown;
    NextThreads(s, t, a, s');
    NextGrows(s, t, a, s');
    GrownLength(s.shared.nodes, s'.shared.nodes);
    AllKnow(s);
    if Lingers(s'.shared, l, n) {
      if Lingers(s.shared, l, n) {
        var u: nat :| u in s.threads && Removing(s.threads[u].pc) == To(n);
        if u != t {
          assert s'.threads[u] == s.threads[u];
        } else {
          AtStep(s, t);
          RemovingStep(s, t, a, s', n);
          if Removing(s'.threads[t].pc) != To(n) { UnlinkedByNow(s, t, l, n); }
        }
      } else {
        NewlyLingers(s, t, a, s', l, n);
      }
    }
  }

  lemma UnlinkedByNow(s: State, t: nat, l: nat, n: nat)
    requires ThreadsOk(s) && t in s.threads && Removing(s.threads[t].pc) == To(n) && s.threads[t].pc.Unlink? && s.threads[t].pc.k == 0
    ensures !Lingers(s.shared, l, n)
  {
    hide ThreadsOk;
    Knows(s, t);
  }

  lemma HeadMarked(s: State, t: nat, a: Action, s': State, n: nat)
    requires ThreadsOk(s) && Next(s, t, a, s') && (a.ToGrowMark? || a.ToGrowCopy?) && n < |s.shared.nodes| <= |s'.shared.nodes|
    requires !s.shared.nodes[n].marked && s'.shared.nodes[n].marked
    ensures s.shared.nodes[n].isHead
  {
    hide ThreadsOk;
    Knows(s, t);
  }

  lemma NewlyLingers(s: State, t: nat, a: Action, s': State, l: nat, n: nat)
    requires Inv(s) && Next(s, t, a, s') && t in s.threads && t in s'.threads
    requires |s.shared.nodes| <= |s'.shared.nodes| && !Lingers(s.shared, l, n) && Lingers(s'.shared, l, n)
    ensures Removing(s'.threads[t].pc) == To(n)
  {
    hide Inv, Next, Removing;
    AllKnow(s);
    LayersStep(s, t, a, s', l, n);
    if InLayer(s.shared.layers, l, n) {
      NotAHead(s, l, n);
      MarkStep(s, t, a, s', n);
      if a.ToGrowMark? || a.ToGrowCopy? { HeadMarked(s, t, a, s', n); }
    } else {
      AtStep(s, t);
      MarkStep(s, t, a, s', n);
    }
  }

  lemma NotAHead(s: State, l: nat, n: nat)
    requires Inv(s) && InLayer(s.shared.layers, l, n)
    ensures n < |s.shared.nodes| && !s.shared.nodes[n].isHead
  {
    hide NodesOk, NoneLost, LocksOk, FreshApart, HeadsOk, ThreadsOk, InLayer;
    HeadIsHead(s.shared);
  }

  lemma {:induction false} RunInHands(states: seq<State>, moves: seq<Move>, i: nat)
    requires IsRun(states, moves) && i < |states|
    ensures AllInHands(states[i])
  {
    hide Inv, Next, LingersInHands;
    if i == 0 {
      StartInHands(states[0]);
    } else {
      RunInHands(states, moves, i - 1);
      RunKeeps(states, moves, i - 1);
      RunKeeps(states, moves, i);
      forall l: nat, n: nat
        ensures LingersInHands(states[i], l, n)
      {
        assert LingersInHands(states[i - 1], l, n);
        NextInHands(states[i - 1], moves[i - 1].thread, moves[i - 1].action, states[i], l, n);
      }
    }
  }

  lemma StartInHands(s: State)
    requires Init(s)
    ensures AllInHands(s)
  {
  }

  /** All threads but t are between two operations. */
  ghost predicate OthersRest(s: State, t: nat) {
    forall u | u in s.threads && u != t :: s.threads[u].pc.Idle?
  }

  /** So what is in a layer is not marked, but for t's own victim. */
  lemma ListUnmarked(s: State, t: nat, l: nat, n: nat)
    requires AllInHands(s) && OthersRest(s, t) && LayersOk(s.shared) && InLayer(s.shared.layers, l, n) && t in s.threads
    requires Removing(s.threads[t].pc) != To(n)
    ensures n < |s.shared.nodes| && !s.shared.nodes[n].marked && !s.shared.nodes[n].isHead
  {
    assert LingersInHands(s, l, n);
  }

  // ----- neighbours that no other thread has changed since

  /** pred is in the layer, or the head, and links to succ there. */
  predicate UpToDate(sh: Shared, l: nat, pred: nat, succ: Link) {
    l < |sh.layers| && (pred == sh.head || pred in sh.layers[l]) && HasLink(sh.nodes, pred, l, succ)
  }

  ghost predicate AllUpToDate(sh: Shared, lo: nat, preds: seq<nat>, succs: seq<Link>) {
    |preds| == |succs| && forall l: nat | lo <= l < |preds| :: UpToDate(sh, l, preds[l], succs[l])
  }

  ghost predicate Fresh(sh: Shared, pc: Pc) {
    match pc
    case Search(_, _, _, layer, pred, foundLayer, foundNode, preds, succs) =>
      && layer < |sh.layers| && (pred == sh.head || pred in sh.layers[layer])
      && (foundLayer >= 0 ==> InLayer(sh.layers, foundLayer, foundNode))
      && AllUpToDate(sh, layer + 1, preds, succs)
    case Chosen(_, _, _, _, preds, succs) => AllUpToDate(sh, 0, preds, succs)
    case Claim(_, _, preds, succs) => AllUpToDate(sh, 0, preds, succs)
    case Claimed(_, _, preds, succs) => AllUpToDate(sh, 0, preds, succs)
    case Lock(_, _, _, _, preds, succs) => AllUpToDate(sh, 0, preds, succs)
    case Check(_, _, _, _, preds, succs) => AllUpToDate(sh, 0, preds, succs)
    case _ => true
  }

  lemma EnterFresh(s: State, t: nat, s': State)
    requires Inv(s) && SkipListSteps.Enter(s, t, s')
    ensures t in s'.threads && Fresh(s'.shared, s'.threads[t].pc)
  {
    hide NodesOk, LayersOk, NoneLost, LocksOk, FreshApart, HeadsOk, ThreadsOk, OpOk;
    Knows(s, t);
  }

  /** In a layer of the node found, the link behind the last node left of it leads to it. */
  lemma FoundNext(sh: Shared, l: nat, pred: nat, data: int, foundNode: nat)
    requires NodesOk(sh.nodes) && LayersOk(sh) && InLayer(sh.layers, l, foundNode) && sh.nodes[foundNode].key == data
    requires (pred == sh.head || pred in sh.layers[l]) && pred < |sh.nodes| && IsLeft(sh.nodes[pred], data)
    requires Readable(sh.nodes, pred, l)
    requires var node := sh.nodes[pred].skip[l]; node.To? ==> node.id < |sh.nodes| && sh.nodes[node.id].key >= data
    ensures sh.nodes[pred].skip[l] == To(foundNode)
  {
    hide NodesOk, LayersOk, IsChain, IsSorted;
    HeadIsHead(sh);
    NotPassedBy(sh, l, foundNode, pred);
    LinkStays(sh, l, pred);
    LayerSorted(sh, l);
    OneOfItsKey(sh.nodes, sh.layers[l], foundNode, sh.nodes[pred].skip[l].id);
  }

  lemma ScanFresh(s: State, t: nat, s': State)
    requires Inv(s) && Scan(s, t, s') && Fresh(s.shared, s.threads[t].pc)
    ensures t in s'.threads && Fresh(s'.shared, s'.threads[t].pc)
  {
    hide NodesOk, LayersOk, NoneLost, LocksOk, FreshApart, HeadsOk, ThreadsOk, OpOk, Neighbours, AllUpToDate;
    var sh, pc := s.shared, s.threads[t].pc;
    Knows(s, t);
    HeadIsHead(sh);
    LinkStays(sh, pc.layer, pc.pred);
    var node := sh.nodes[pc.pred].skip[pc.layer];
    if !(node.To? && sh.nodes[node.id].key < pc.data) {
      var hit := pc.foundLayer == -1 && node.To? && sh.nodes[node.id].key == pc.data;
      var succ := if hit then node else if pc.foundLayer >= 0 then To(pc.foundNode) else node;
      if pc.foundLayer >= 0 {
        Lower(sh, pc.foundLayer, pc.layer, pc.foundNode);
        FoundNext(sh, pc.layer, pc.pred, pc.data, pc.foundNode);
      }
      OneMoreUpToDate(sh, pc.layer, pc.preds, pc.succs, pc.pred, succ);
      if pc.layer > 0 && pc.pred != sh.head { Lower(sh, pc.layer, pc.layer - 1, pc.pred); }
    }
  }

  lemma Lower(sh: Shared, m: nat, l: nat, n: nat)
    requires LayersOk(sh) && InLayer(sh.layers, m, n) && l <= m
    ensures InLayer(sh.layers, l, n)
  {
  }

  lemma OneMoreUpToDate(sh: Shared, l: nat, preds: seq<nat>, succs: seq<Link>, pred: nat, succ: Link)
    requires AllUpToDate(sh, l + 1, preds, succs) && l < |preds| && UpToDate(sh, l, pred, succ)
    ensures AllUpToDate(sh, l, preds[l := pred], succs[l := succ])
  {
  }

  ghost predicate SameLinks(sh: Shared, sh': Shared) {
    && sh'.head == sh.head && sh'.layers == sh.layers && |sh'.nodes| == |sh.nodes|
    && forall n | 0 <= n < |sh.nodes| :: sh'.nodes[n].skip == sh.nodes[n].skip
  }

  lemma UpToDateStays(sh: Shared, sh': Shared, lo: nat, preds: seq<nat>, succs: seq<Link>)
    requires SameLinks(sh, sh') && AllUpToDate(sh, lo, preds, succs)
    ensures AllUpToDate(sh', lo, preds, succs)
  {
    forall l: nat | lo <= l < |preds|
      ensures UpToDate(sh', l, preds[l], succs[l])
    {
      assert UpToDate(sh, l, preds[l], succs[l]);
    }
  }

  /** The lists of neighbours that a place has all of. */
  predicate Has(pc: Pc, preds: seq<nat>, succs: seq<Link>) {
    match pc
    case Chosen(_, _, _, _, p, q) => p == preds && q == succs
    case Claim(_, _, p, q) => p == preds && q == succs
    case Claimed(_, _, p, q) => p == preds && q == succs
    case Lock(_, _, _, _, p, q) => p == preds && q == succs
    case Check(_, _, _, _, p, q) => p == preds && q == succs
    case _ => false
  }

  lemma FreshHas(sh: Shared, pc: Pc, preds: seq<nat>, succs: seq<Link>)
    requires Has(pc, preds, succs)
    ensures Fresh(sh, pc) <==> AllUpToDate(sh, 0, preds, succs)
  {
  }

  lemma KeepsNeighbours(s: State, t: nat, a: Action, s': State) returns (preds: seq<nat>, succs: seq<Link>)
    requires Next(s, t, a, s') && t in s.threads && t in s'.threads && !a.ToScan? && !a.ToEnter?
    ensures
      || (Has(s.threads[t].pc, preds, succs) && Has(s'.threads[t].pc, preds, succs) && SameLinks(s.shared, s'.shared))
      || (!s'.threads[t].pc.Search? && !Has(s'.threads[t].pc, preds, succs) && Fresh(s'.shared, s'.threads[t].pc))
  {
    hide Next, Has, SameLinks;
    preds, succs := NeighboursOf(s.threads[t].pc);
    if Has(s'.threads[t].pc, preds, succs) && Has(s.threads[t].pc, preds, succs) {
      LinksStay(s, t, a, s', preds, succs);
    } else {
      NoNeighbours(s, t, a, s', preds, succs);
    }
  }

  lemma NeighboursOf(pc: Pc) returns (preds: seq<nat>, succs: seq<Link>)
    ensures pc.Chosen? || pc.Claim? || pc.Claimed? || pc.Lock? || pc.Check? ==> Has(pc, preds, succs)
  {
    preds, succs := [], [];
    match pc
    case Chosen(_, _, _, _, p, q) => preds, succs := p, q;
    case Claim(_, _, p, q) => preds, succs := p, q;
    case Claimed(_, _, p, q) => preds, succs := p, q;
    case Lock(_, _, _, _, p, q) => preds, succs := p, q;
    case Check(_, _, _, _, p, q) => preds, succs := p, q;
    case _ =>
  }

  lemma LinksStay(s: State, t: nat, a: Action, s': State, preds: seq<nat>, succs: seq<Link>)
    requires Next(s, t, a, s') && t in s.threads && t in s'.threads && !a.ToScan? && !a.ToEnter?
    requires Has(s.threads[t].pc, preds, succs) && Has(s'.threads[t].pc, preds, succs)
    ensures SameLinks(s.shared, s'.shared)
  {
    hide PredValid, MaxLayer, Kept, OkToDelete, InsertAfter, Without, Nils, FreeAll, SetSkip;
  }

  lemma NoNeighbours(s: State, t: nat, a: Action, s': State, preds: seq<nat>, succs: seq<Link>)
    requires Next(s, t, a, s') && t in s.threads && t in s'.threads && !a.ToScan? && !a.ToEnter?
    requires var pc := s.threads[t].pc; pc.Chosen? || pc.Claim? || pc.Claimed? || pc.Lock? || pc.Check? ==> Has(pc, preds, succs)
    requires !(Has(s.threads[t].pc, preds, succs) && Has(s'.threads[t].pc, preds, succs))
    ensures !s'.threads[t].pc.Search? && !Has(s'.threads[t].pc, preds, succs) && Fresh(s'.shared, s'.threads[t].pc)
  {
    hide PredValid, MaxLayer, Kept, OkToDelete, LinkedIn, UnlinkedFrom, FreeAll, SetSkip, SetOwner, CopyHead, NewHeadOrNode, Nils;
  }

  /** t's own steps leave what it has read up to date, or it begins to read anew. */
  lemma FreshStep(s: State, t: nat, a: Action, s': State)
    requires Inv(s) && Next(s, t, a, s') && t in s.threads && Fresh(s.shared, s.threads[t].pc)
    ensures t in s'.threads && Fresh(s'.shared, s'.threads[t].pc)
  {
    hide Inv, Next, Fresh, Scan, SkipListSteps.Enter, AllUpToDate, Has, SameLinks;
    NextThreads(s, t, a, s');
    if a.ToScan? {
      ScanFresh(s, t, s') by { IsScan(s, t, a, s'); }
    } else if a.ToEnter? {
      EnterFresh(s, t, s') by { IsEnter(s, t, a, s'); }
    } else {
      var preds, succs := KeepsNeighbours(s, t, a, s');
      if Has(s.threads[t].pc, preds, succs) && Has(s'.threads[t].pc, preds, succs) && SameLinks(s.shared, s'.shared) {
        FreshHas(s.shared, s.threads[t].pc, preds, succs);
        FreshHas(s'.shared, s'.threads[t].pc, preds, succs);
        UpToDateStays(s.shared, s'.shared, 0, preds, succs);
      }
    }
  }

  lemma IsScan(s: State, t: nat, a: Action, s': State)
    requires Next(s, t, a, s') && a.ToScan?
    ensures Scan(s, t, s')
  {
    hide Scan;
  }

  lemma IsEnter(s: State, t: nat, a: Action, s': State)
    requires Next(s, t, a, s') && a.ToEnter?
    ensures SkipListSteps.Enter(s, t, s')
  {
    hide SkipListSteps.Enter;
  }

  // ----- no retry over up-to-date neighbours

  lemma CheckSucceeds(s: State, t: nat)
    requires Inv(s) && AllInHands(s) && OthersRest(s, t) && t in s.threads && s.threads[t].pc.Check? && Fresh(s.shared, s.threads[t].pc)
    ensures
      var pc := s.threads[t].pc;
      pc.layer < |pc.preds| == |pc.succs| && PredValid(s.shared.nodes, pc.op, pc.layer, pc.preds[pc.layer], pc.succs[pc.layer])
  {
    hide NodesOk, LayersOk, NoneLost, LocksOk, FreshApart, HeadsOk, ThreadsOk, AllValidated, AllInHands, OthersRest;
    Knows(s, t);
    var sh, pc := s.shared, s.threads[t].pc;
    var l, pred, succ := pc.layer, pc.preds[pc.layer], pc.succs[pc.layer];
    assert UpToDate(sh, l, pred, succ);
    HeadIsHead(sh);
    KeysLinked(sh.nodes, pc.op, pc.data, pc.preds, pc.succs, l);
    if pred != sh.head {
      assert InLayer(sh.layers, l, pred);
      ListUnmarked(s, t, l, pred);
    }
    if pc.op.Add? && succ.To? {
      LinkStays(sh, l, pred);
      ListUnmarked(s, t, l, succ.id);
    }
  }

  lemma FoundUnmarked(s: State, t: nat)
    requires Inv(s) && AllInHands(s) && OthersRest(s, t) && t in s.threads && s.threads[t].pc.Chosen? && Fresh(s.shared, s.threads[t].pc)
    requires var pc := s.threads[t].pc; pc.op.Add? && 0 <= pc.foundLayer < |pc.succs| && pc.succs[pc.foundLayer].To?
    ensures var n := s.threads[t].pc.succs[s.threads[t].pc.foundLayer].id; n < |s.shared.nodes| && !s.shared.nodes[n].marked
  {
    hide NodesOk, LayersOk, NoneLost, LocksOk, FreshApart, HeadsOk, ThreadsOk, AllInHands, OthersRest;
    var sh, pc := s.shared, s.threads[t].pc;
    var l: nat := pc.foundLayer;
    assert UpToDate(sh, l, pc.preds[l], pc.succs[l]);
    LinkStays(sh, l, pc.preds[l]);
    ListUnmarked(s, t, l, pc.succs[l].id);
  }

  // ----- how far a call is from its end

  predicate IsBehind(nodes: seq<Node>, p: nat, n: nat) {
    n < |nodes| && p < |nodes| && !nodes[n].isHead && (nodes[p].isHead || nodes[p].key < nodes[n].key)
  }

  /** How many of the first k nodes belong right of p. */
  function Behind(nodes: seq<Node>, p: nat, k: nat): (r: nat)
    ensures r <= k
  {
    if k == 0 then 0 else Behind(nodes, p, k - 1) + if IsBehind(nodes, p, k - 1) then 1 else 0
  }

  lemma {:induction false} FewerBehind(nodes: seq<Node>, p: nat, n: nat, k: nat)
    requires IsBehind(nodes, p, n)
    ensures Behind(nodes, n, k) <= Behind(nodes, p, k) && (n < k ==> Behind(nodes, n, k) < Behind(nodes, p, k))
  {
    if k > 0 { FewerBehind(nodes, p, n, k - 1); }
  }

  function HeightOf(nodes: seq<Node>, n: nat): nat {
    if n < |nodes| then |nodes[n].skip| else 0
  }

  /** More than the links of a layer. */
  function Width(sh: Shared): nat {
    |sh.nodes| + 1
  }

  /** How many steps the call takes at most if it need not search once more. */
  function Ahead(sh: Shared, pc: Pc): int {
    match pc
    case Idle(_) => 0
    case Begin(_, _, top) => 5 * (top + 1) + 14 + (top + 1) * Width(sh)
    case Search(_, _, _, layer, pred, _, _, preds, _) => 5 * |preds| + 13 + layer * Width(sh) + Behind(sh.nodes, pred, |sh.nodes|)
    case Chosen(_, _, _, _, preds, _) => 5 * |preds| + 12
    case Claim(_, _, preds, _) => 5 * |preds| + 11
    case Claimed(_, _, preds, _) => 5 * |preds| + 10
    case Lock(_, _, height, layer, _, _) => 3 * height + 7 + 2 * (height - layer)
    case Check(_, _, height, layer, _, _) => 3 * height + 6 + 2 * (height - layer)
    case LinkIn(_, node, k, stored, _, _) => 2 * (HeightOf(sh.nodes, node) - k) + (if stored then 2 else 3)
    case Unlink(_, _, k, _, _) => k + 2
    case Await(_) => 2
    case Grow(_, _) => 5
    case GrowLocked(_, _) => 4
    case GrowCopied(_, _) => 3
    case GrowSwapped(_) => 2
    case Finish(_) => 1
  }

  lemma WidthTimes(k: int, w: int)
    ensures (k + 1) * w == k * w + w
  {
  }

  lemma EnterAhead(s: State, t: nat, s': State)
    requires SkipListSteps.Enter(s, t, s')
    ensures t in s'.threads && s'.shared == s.shared && Ahead(s'.shared, s'.threads[t].pc) < Ahead(s.shared, s.threads[t].pc)
  {
    WidthTimes(s.threads[t].pc.top, Width(s.shared));
  }

  lemma ScanAhead(s: State, t: nat, s': State)
    requires Inv(s) && Scan(s, t, s')
    ensures t in s'.threads && s'.shared == s.shared && Ahead(s'.shared, s'.threads[t].pc) < Ahead(s.shared, s.threads[t].pc)
  {
    hide NodesOk, LayersOk, NoneLost, LocksOk, FreshApart, HeadsOk, ThreadsOk, Neighbours, OpOk;
    Knows(s, t);
    var nodes, pc := s.shared.nodes, s.threads[t].pc;
    var node := nodes[pc.pred].skip[pc.layer];
    if node.To? && nodes[node.id].key < pc.data {
      LinkTo(nodes, pc.pred, pc.layer);
      FewerBehind(nodes, pc.pred, node.id, |nodes|);
    } else if pc.layer > 0 {
      WidthTimes(pc.layer - 1, Width(s.shared));
    }
  }

  lemma LinkTo(nodes: seq<Node>, p: nat, l: nat)
    requires NodesOk(nodes) && p < |nodes| && l < |nodes[p].skip| && nodes[p].skip[l].To?
    ensures IsBehind(nodes, p, nodes[p].skip[l].id)
  {
    assert NodeOk(nodes, p) && LinkOk(nodes, p, l);
  }

  /** Back to the search: the node found is going away, or a predecessor is not valid any more. */
  predicate Retries(s: State, t: nat, a: Action, s': State) {
    (a.ToAddFound? || a.ToTestPred?) && t in s'.threads && s'.threads[t].pc.Begin?
  }

  /** What is known of the numbers at a place. */
  ghost predicate Sized(sh: Shared, pc: Pc) {
    match pc
    case Chosen(op, _, top, foundLayer, preds, succs) =>
      |preds| == top + 1 && (op.Unfinished? ==> HeightOf(sh.nodes, op.victim) <= |preds|)
    case Claimed(_, victim, preds, _) => HeightOf(sh.nodes, victim) <= |preds|
    case Lock(_, _, height, layer, _, _) => layer < height
    case Check(op, _, height, layer, _, _) => layer < height && !op.Remove?
    case LinkIn(_, node, k, stored, _, _) => k <= HeightOf(sh.nodes, node) && (stored ==> k < HeightOf(sh.nodes, node))
    case _ => true
  }

  lemma KnownSizes(s: State, t: nat)
    requires Inv(s) && t in s.threads
    ensures Sized(s.shared, s.threads[t].pc)
  {
    hide NodesOk, LayersOk, NoneLost, LocksOk, FreshApart, HeadsOk, ThreadsOk, Neighbours, KeysFit, AllValidated, SearchedFor;
    Knows(s, t);
  }

  /** Every other step comes nearer to the end. */
  lemma StepAhead(s: State, t: nat, a: Action, s': State)
    requires Next(s, t, a, s') && t in s.threads && t in s'.threads && !s.threads[t].pc.Idle? && Sized(s.shared, s.threads[t].pc)
    requires !a.ToScan? && !a.ToEnter? && !Retries(s, t, a, s')
    ensures Ahead(s'.shared, s'.threads[t].pc) < Ahead(s.shared, s.threads[t].pc)
  {
    hide Next, Ahead, Sized;
    if a.ToAddFound? || a.ToAddReturn? || a.ToAddMissing? || a.ToRemoveFirst? || a.ToRemoveAgain? || a.ToTakeVictim? || a.ToMarkVictim? {
      DecideAhead(s, t, a, s');
    } else if a.ToTakePred? || a.ToTestPred? || a.ToRelease? {
      LockAhead(s, t, a, s');
    } else {
      StoreAhead(s, t, a, s');
    }
  }

  lemma DecideAhead(s: State, t: nat, a: Action, s': State)
    requires Next(s, t, a, s') && t in s.threads && t in s'.threads && Sized(s.shared, s.threads[t].pc) && !Retries(s, t, a, s')
    requires a.ToAddFound? || a.ToAddReturn? || a.ToAddMissing? || a.ToRemoveFirst? || a.ToRemoveAgain? || a.ToTakeVictim?
             || a.ToMarkVictim?
    ensures Ahead(s'.shared, s'.threads[t].pc) < Ahead(s.shared, s.threads[t].pc)
  {
    hide MaxLayer, OkToDelete, Behind;
  }

  lemma LockAhead(s: State, t: nat, a: Action, s': State)
    requires Next(s, t, a, s') && t in s.threads && t in s'.threads && Sized(s.shared, s.threads[t].pc) && !Retries(s, t, a, s')
    requires a.ToTakePred? || a.ToTestPred? || a.ToRelease?
    ensures Ahead(s'.shared, s'.threads[t].pc) < Ahead(s.shared, s.threads[t].pc)
  {
    hide PredValid, MaxLayer, Kept, Nils, Behind, FreeAll, SetOwner;
  }

  lemma StoreAhead(s: State, t: nat, a: Action, s': State)
    requires Next(s, t, a, s') && t in s.threads && t in s'.threads && Sized(s.shared, s.threads[t].pc) && !s.threads[t].pc.Idle?
    requires a.ToStart? || a.ToStoreOwn? || a.ToStorePred? || a.ToSetFull? || a.ToStoreUnlink? || a.ToGrowStart? || a.ToGrowLock?
             || a.ToGrowCopy? || a.ToGrowSwap? || a.ToGrowMark?
    ensures Ahead(s'.shared, s'.threads[t].pc) < Ahead(s.shared, s.threads[t].pc)
  {
    hide MaxLayer, InsertAfter, Without, Nils, Behind, SetOwner, CopyHead;
  }

  /** What one more search and all behind it may take. */
  function Again(sh: Shared): int {
    5 * |sh.layers| + 15 + |sh.layers| * Width(sh)
  }

  /** The most steps that the call still takes when it is left alone. */
  ghost function StepsLeft(s: State, t: nat): int
    requires t in s.threads
  {
    var pc := s.threads[t].pc;
    Ahead(s.shared, pc) + if Fresh(s.shared, pc) then 0 else Again(s.shared)
  }

  lemma RetryAhead(s: State, t: nat, a: Action, s': State)
    requires Inv(s) && AllInHands(s) && OthersRest(s, t) && Next(s, t, a, s') && t in s.threads && Retries(s, t, a, s')
    ensures !Fresh(s.shared, s.threads[t].pc) && Fresh(s'.shared, s'.threads[t].pc)
    ensures Ahead(s'.shared, s'.threads[t].pc) < Again(s.shared)
  {
    hide Inv, AllInHands, OthersRest, Next, Fresh, Ahead, Again;
    FreshBegin(s'.shared, s'.threads[t].pc);
    HeadThere(s);
    RetryBegins(s, t, a, s');
    BeginAhead(s, s', s'.threads[t].pc);
    if Fresh(s.shared, s.threads[t].pc) {
      if a.ToTestPred? { CheckSucceeds(s, t); } else { FoundUnmarked(s, t); }
    }
  }

  lemma HeadThere(s: State)
    requires Inv(s)
    ensures s.shared.head < |s.shared.nodes|
  {
  }

  lemma RetryBegins(s: State, t: nat, a: Action, s': State)
    requires Next(s, t, a, s') && t in s.threads && Retries(s, t, a, s') && s.shared.head < |s.shared.nodes|
    ensures s'.threads[t].pc.top == MaxLayer(s.shared) && |s'.shared.nodes| == |s.shared.nodes|
    ensures
      var pc, nodes := s.threads[t].pc, s.shared.nodes;
      if a.ToTestPred? then
        && pc.Check? && pc.layer < |pc.preds| == |pc.succs|
        && !PredValid(nodes, pc.op, pc.layer, pc.preds[pc.layer], pc.succs[pc.layer])
      else
        && pc.Chosen? && pc.op.Add? && 0 <= pc.foundLayer < |pc.succs| && pc.succs[pc.foundLayer].To?
        && pc.succs[pc.foundLayer].id < |nodes| && nodes[pc.succs[pc.foundLayer].id].marked
  {
    hide PredValid, MaxLayer, Kept;
  }

  lemma BeginAhead(s: State, s': State, pc: Pc)
    requires Inv(s) && pc.Begin? && s.shared.head < |s.shared.nodes|
    requires pc.top == MaxLayer(s.shared) && |s'.shared.nodes| == |s.shared.nodes|
    ensures Ahead(s'.shared, pc) < Again(s.shared)
  {
    hide Inv;
    MostLayers(s);
  }

  lemma FreshBegin(sh: Shared, pc: Pc)
    requires pc.Begin?
    ensures Fresh(sh, pc)
  {
  }

  lemma MostLayers(s: State)
    requires Inv(s)
    ensures MaxLayer(s.shared) + 1 == |s.shared.layers|
  {
    hide NoneLost, LocksOk, FreshApart, HeadsOk, ThreadsOk;
    HasHeight(s.shared, s.shared.head);
  }

  /** As long as a place is not up to date nothing but locks and marks has changed. */
  lemma SameAgain(s: State, t: nat, a: Action, s': State)
    requires Next(s, t, a, s') && t in s.threads && t in s'.threads && !Fresh(s'.shared, s'.threads[t].pc)
    ensures Again(s'.shared) == Again(s.shared)
  {
    hide Fresh;
    if a.ToScan? || a.ToEnter? {
      SearchLeaves(s, t, a, s');
    } else {
      var preds, succs := KeepsNeighbours(s, t, a, s');
    }
  }

  lemma SearchLeaves(s: State, t: nat, a: Action, s': State)
    requires Next(s, t, a, s') && (a.ToScan? || a.ToEnter?)
    ensures s'.shared == s.shared
  {
  }

  lemma Positive(s: State, t: nat)
    requires Inv(s) && t in s.threads
    ensures 0 <= Ahead(s.shared, s.threads[t].pc) && 0 <= Again(s.shared)
  {
    hide Inv;
    KnownSizes(s, t);
  }

  lemma OneStepLess(s: State, t: nat, a: Action, s': State)
    requires Inv(s) && AllInHands(s) && OthersRest(s, t) && Next(s, t, a, s') && t in s.threads && !s.threads[t].pc.Idle?
    ensures t in s'.threads && StepsLeft(s', t) < StepsLeft(s, t)
  {
    hide Inv, AllInHands, OthersRest, Next, Fresh, Again, Ahead, SkipListSteps.Enter, Scan;
    NextThreads(s, t, a, s');
    Positive(s, t);
    if Fresh(s.shared, s.threads[t].pc) { FreshStep(s, t, a, s'); }
    if !Fresh(s'.shared, s'.threads[t].pc) { SameAgain(s, t, a, s'); }
    if Retries(s, t, a, s') {
      RetryAhead(s, t, a, s');
    } else if a.ToScan? {
      ScanAhead(s, t, s') by { IsScan(s, t, a, s'); }
    } else if a.ToEnter? {
      EnterAhead(s, t, s') by { IsEnter(s, t, a, s'); }
    } else {
      KnownSizes(s, t);
      StepAhead(s, t, a, s');
    }
  }

  // ----- runs

  /** From the i-th state to the j-th only t moves, all others rest, and t is in the middle of a call. */
  ghost predicate IsAlone(states: seq<State>, moves: seq<Move>, t: nat, i: nat, j: nat) {
    && IsRun(states, moves) && i <= j < |states| && t in states[i].threads && OthersRest(states[i], t)
    && (forall k | i <= k < j :: moves[k].thread == t)
    && (forall k | i <= k < j :: t in states[k].threads && !states[k].threads[t].pc.Idle?)
  }

  lemma {:induction false} AloneRuns(states: seq<State>, moves: seq<Move>, t: nat, i: nat, j: nat, k: nat)
    requires IsAlone(states, moves, t, i, j) && i <= k <= j
    ensures t in states[k].threads && OthersRest(states[k], t)
    ensures StepsLeft(states[k], t) + (k - i) <= StepsLeft(states[i], t)
  {
    hide Inv, Next, Init, AllInHands, StepsLeft;
    if i < k {
      AloneRuns(states, moves, t, i, j, k - 1);
      RunKeeps(states, moves, k - 1);
      RunInHands(states, moves, k - 1);
      NextThreads(states[k - 1], t, moves[k - 1].action, states[k]);
      OneStepLess(states[k - 1], t, moves[k - 1].action, states[k]);
    }
  }

  /**
   While all others rest, a call of add, remove or growHeight, however far it has come and whatever has happened to the
   list since, can always go on, and is over after a number of steps known beforehand.
   */
  lemma LoneCallEnds(states: seq<State>, moves: seq<Move>, t: nat, i: nat, j: nat)
    requires IsAlone(states, moves, t, i, j)
    ensures j - i <= StepsLeft(states[i], t)
    ensures CanStep(states[j], t)
  {
    hide Inv, IsRun, Next, Init, AllInHands, Ahead, Again, Fresh, CanStep, AllInLine, AllInGoodHands, OthersRest, InLine,
         AwaitsLock, AwaitsLinking;
    AloneRuns(states, moves, t, i, j, j);
    RunKeeps(states, moves, j);
    Positive(states[j], t);
    var path := NobodyIsStuck(states, moves, j, t);
    RunInLine(states, moves, j);
    if |path| > 1 { NotDelayed(states[j], t, path[1]); }
  }

  lemma NotDelayed(s: State, t: nat, u: nat)
    requires Inv(s) && AllInLine(s) && OthersRest(s, t)
    ensures !Delays(s, t, u)
  {
    hide Inv;
    if Delays(s, t, u) {
      assert InLine(s.shared.nodes, s.threads[u]);
      if u == t && WaitsFor(s, t, u) { WantsLeft(s, t, Wanted(s.threads[t]).id); }
    }
  }
}
