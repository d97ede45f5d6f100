/** What a thread knows survives the steps of the others. */
module SkipListStability {
  import opened SkipListState

  predicate SameNode(x: Node, y: Node) {
    && y.key == x.key && y.isHead == x.isHead && |y.skip| == |x.skip| && x.linked <= y.linked
    && (x.marked ==> y.marked) && (x.full ==> y.full) && (x.linked == |x.skip| ==> y.linked == x.linked)
  }

  /** Nodes keep their keys and heights and only gain flags and layers. */
  ghost predicate Grown(nodes: seq<Node>, nodes': seq<Node>) {
    |nodes| <= |nodes'| && forall n | 0 <= n < |nodes| :: SameNode(nodes[n], nodes'[n])
  }

  /** A locked node keeps its mark and, in the layers it is part of, its links. */
  predicate LockedSame(x: Node, y: Node) {
    y.marked == x.marked && |y.skip| == |x.skip| && forall l | 0 <= l < x.linked && l < |x.skip| :: y.skip[l] == x.skip[l]
  }

  /** A node its maker has not finished keeps everything the maker is in charge of. */
  predicate FreshSame(x: Node, y: Node) {
    && y.marked == x.marked && y.full == x.full && y.linked == x.linked && |y.skip| == |x.skip|
    && forall l | x.linked <= l < |x.skip| :: y.skip[l] == x.skip[l]
  }

  ghost predicate SameLayers(layers: seq<seq<nat>>, layers': seq<seq<nat>>, n: nat) {
    forall l: nat :: InLayer(layers', l, n) <==> InLayer(layers, l, n)
  }

  /** The change from sh to sh' leaves alone what a thread with these locks and this unfinished node relies on. */
  ghost predicate Respects(sh: Shared, sh': Shared, held: set<nat>, mine: Link) {
    && Grown(sh.nodes, sh'.nodes) && |sh.layers| <= |sh'.layers|
    && (forall n | 0 <= n < |sh.nodes| && n in held :: LockedSame(sh.nodes[n], sh'.nodes[n]))
    && (forall n | 0 <= n < |sh.nodes| && n in held && sh.nodes[n].marked :: SameLayers(sh.layers, sh'.layers, n))
    && (mine.To? && mine.id < |sh.nodes| ==> FreshSame(sh.nodes[mine.id], sh'.nodes[mine.id]))
    && (sh'.head == sh.head || sh'.head >= |sh.nodes| || sh.nodes[sh'.head].linked == 0)
  }

  lemma NeighboursStay(nodes: seq<Node>, nodes': seq<Node>, data: int, lo: nat, foundLayer: int, preds: seq<nat>, succs: seq<Link>)
    requires Grown(nodes, nodes') && Neighbours(nodes, data, lo, foundLayer, preds, succs)
    ensures Neighbours(nodes', data, lo, foundLayer, preds, succs)
  {
  }

  lemma SearchedStays(nodes: seq<Node>, nodes': seq<Node>, data: int, preds: seq<nat>, succs: seq<Link>)
    requires Grown(nodes, nodes') && SearchedFor(nodes, data, preds, succs)
    ensures SearchedFor(nodes', data, preds, succs)
  {
  }

  lemma KeysStay(nodes: seq<Node>, nodes': seq<Node>, op: Op, data: int, preds: seq<nat>, succs: seq<Link>)
    requires Grown(nodes, nodes') && KeysFit(nodes, op, data, preds, succs)
    ensures KeysFit(nodes', op, data, preds, succs)
  {
    if op.Add? {
      NeighboursStay(nodes, nodes', data, 0, -1, preds, succs);
    } else {
      SearchedStays(nodes, nodes', data, preds, succs);
    }
  }

  /** Fitting neighbours belong to the layer they were recorded for. */
  lemma KeysLinked(nodes: seq<Node>, op: Op, data: int, preds: seq<nat>, succs: seq<Link>, l: nat)
    requires KeysFit(nodes, op, data, preds, succs) && l < |preds|
    ensures |preds| == |succs| && LeftOf(nodes, preds[l], l, data)
  {
  }

  lemma ValidatedStays(sh: Shared, sh': Shared, held: set<nat>, mine: Link, op: Op, data: int, lo: nat, hi: nat,
                       preds: seq<nat>, succs: seq<Link>)
    requires Respects(sh, sh', held, mine) && KeysFit(sh.nodes, op, data, preds, succs)
    requires AllValidated(sh.nodes, held, lo, hi, preds, succs)
    ensures AllValidated(sh'.nodes, held, lo, hi, preds, succs)
  {
  }

  lemma VictimStays(sh: Shared, sh': Shared, held: set<nat>, mine: Link, victim: nat, data: int, k: nat)
    requires Respects(sh, sh', held, mine) && VictimOk(sh, held, victim, data, k)
    ensures VictimOk(sh', held, victim, data, k)
  {
  }

  lemma RemovedStays(sh: Shared, sh': Shared, held: set<nat>, mine: Link, victim: nat)
    requires Respects(sh, sh', held, mine) && victim < |sh.nodes| && VictimOk(sh, held, victim, sh.nodes[victim].key, 0)
    ensures victim < |sh'.nodes| && VictimOk(sh', held, victim, sh'.nodes[victim].key, 0)
  {
  }

  lemma OpStays(sh: Shared, sh': Shared, held: set<nat>, mine: Link, op: Op, data: int, top: nat)
    requires Respects(sh, sh', held, mine) && OpOk(sh, held, op, data, top)
    ensures OpOk(sh', held, op, data, top)
  {
  }

  lemma SearchStable(sh: Shared, sh': Shared, th: Thread)
    requires Respects(sh, sh', th.held, Fresh(th.pc)) && ThreadOk(sh, th)
    requires th.pc.Begin? || th.pc.Search? || th.pc.Chosen? || th.pc.Await? || th.pc.Claim? || th.pc.Claimed?
    ensures ThreadOk(sh', th)
  {
    hide Respects, Neighbours, SearchedFor, OpOk;
    var mine := Fresh(th.pc);
    RespectsGrown(sh, sh', th.held, mine);
    match th.pc
    case Begin(op, data, top) => OpStays(sh, sh', th.held, mine, op, data, top);
    case Search(op, data, top, layer, pred, foundLayer, foundNode, preds, succs) =>
      OpStays(sh, sh', th.held, mine, op, data, top);
      NeighboursStay(sh.nodes, sh'.nodes, data, layer + 1, foundLayer, preds, succs);
    case Chosen(op, data, top, foundLayer, preds, succs) =>
      OpStays(sh, sh', th.held, mine, op, data, top);
      NeighboursStay(sh.nodes, sh'.nodes, data, 0, foundLayer, preds, succs);
    case Claim(data, victim, preds, succs) => SearchedStays(sh.nodes, sh'.nodes, data, preds, succs);
    case Claimed(data, victim, preds, succs) => SearchedStays(sh.nodes, sh'.nodes, data, preds, succs);
    case _ =>
  }

  lemma ChangeStable(sh: Shared, sh': Shared, th: Thread)
    requires Respects(sh, sh', th.held, Fresh(th.pc)) && ThreadOk(sh, th)
    requires th.pc.Lock? || th.pc.Check? || th.pc.LinkIn? || th.pc.Unlink?
    ensures ThreadOk(sh', th)
  {
    hide Respects, KeysFit, AllValidated, VictimOk, OpOk, NewNode;
    var mine := Fresh(th.pc);
    RespectsGrown(sh, sh', th.held, mine);
    match th.pc
    case Lock(op, data, height, layer, preds, succs) =>
      OpStays(sh, sh', th.held, mine, op, data, height - 1);
      KeysStay(sh.nodes, sh'.nodes, op, data, preds, succs);
      ValidatedStays(sh, sh', th.held, mine, op, data, 0, layer, preds, succs);
    case Check(op, data, height, layer, preds, succs) =>
      OpStays(sh, sh', th.held, mine, op, data, height - 1);
      KeysStay(sh.nodes, sh'.nodes, op, data, preds, succs);
      ValidatedStays(sh, sh', th.held, mine, op, data, 0, layer, preds, succs);
    case LinkIn(data, node, k, stored, preds, succs) =>
      NewNodeStays(sh, sh', th.held, node, data, k);
      KeysStay(sh.nodes, sh'.nodes, Add, data, preds, succs);
      ValidatedStays(sh, sh', th.held, mine, Add, data, k, |sh.nodes[node].skip|, preds, succs);
    case Unlink(data, victim, k, preds, succs) =>
      VictimStays(sh, sh', th.held, mine, victim, data, k);
      KeysStay(sh.nodes, sh'.nodes, Unfinished(victim), data, preds, succs);
      ValidatedStays(sh, sh', th.held, mine, Unfinished(victim), data, 0, k, preds, succs);
    case _ =>
  }

  /** One thread's knowledge survives any change that respects it. */
  lemma Stable(sh: Shared, sh': Shared, th: Thread)
    requires Respects(sh, sh', th.held, Fresh(th.pc)) && ThreadOk(sh, th)
    ensures ThreadOk(sh', th)
  {
    hide Respects, Neighbours, SearchedFor, KeysFit, AllValidated, VictimOk, OpOk, PrivateHead, UnusedHead, CopiedHead, NewNode;
    match th.pc
    case Grow(oldHead, node) => HeadStays(sh, sh', th.held, node, oldHead);
    case GrowLocked(oldHead, node) => HeadStays(sh, sh', th.held, node, oldHead);
    case GrowCopied(oldHead, node) => HeadStays(sh, sh', th.held, node, oldHead);
    case GrowSwapped(oldHead) => SwappedStays(sh, sh', th.held, Fresh(th.pc), oldHead);
    case Idle(_) =>
    case Finish(answer) =>
      if answer.Removed? { RemovedStays(sh, sh', th.held, Fresh(th.pc), answer.node); }
    case _ =>
      if th.pc.Lock? || th.pc.Check? || th.pc.LinkIn? || th.pc.Unlink? {
        ChangeStable(sh, sh', th);
      } else {
        SearchStable(sh, sh', th);
      }
  }

  lemma RespectsGrown(sh: Shared, sh': Shared, held: set<nat>, mine: Link)
    requires Respects(sh, sh', held, mine)
    ensures Grown(sh.nodes, sh'.nodes) && |sh.layers| <= |sh'.layers|
    ensures forall n | 0 <= n < |sh.nodes| :: SameNode(sh.nodes[n], sh'.nodes[n])
  {
  }

  lemma NewNodeStays(sh: Shared, sh': Shared, held: set<nat>, node: nat, data: int, k: nat)
    requires Respects(sh, sh', held, To(node)) && NewNode(sh.nodes, node, data, k)
    ensures node < |sh.nodes| && NewNode(sh'.nodes, node, data, k) && |sh'.nodes[node].skip| == |sh.nodes[node].skip|
    ensures forall l | k <= l < |sh.nodes[node].skip| :: sh'.nodes[node].skip[l] == sh.nodes[node].skip[l]
  {
  }

  lemma HeadStays(sh: Shared, sh': Shared, held: set<nat>, node: nat, oldHead: nat)
    requires Respects(sh, sh', held, To(node)) && PrivateHead(sh.nodes, node, oldHead)
    ensures PrivateHead(sh'.nodes, node, oldHead)
    ensures UnusedHead(sh.nodes, node) ==> UnusedHead(sh'.nodes, node)
    ensures CopiedHead(sh.nodes, node, oldHead) && oldHead in held ==> CopiedHead(sh'.nodes, node, oldHead)
  {
    assert SameNode(sh.nodes[node], sh'.nodes[node]) && SameNode(sh.nodes[oldHead], sh'.nodes[oldHead]);
    assert FreshSame(sh.nodes[node], sh'.nodes[node]);
    if oldHead in held { assert LockedSame(sh.nodes[oldHead], sh'.nodes[oldHead]); }
  }

  lemma SwappedStays(sh: Shared, sh': Shared, held: set<nat>, mine: Link, oldHead: nat)
    requires Respects(sh, sh', held, mine) && oldHead < |sh.nodes| && oldHead != sh.head
    requires sh.nodes[oldHead].isHead && sh.nodes[oldHead].linked > 0
    ensures oldHead != sh'.head && oldHead < |sh'.nodes| && sh'.nodes[oldHead].isHead && sh'.nodes[oldHead].linked > 0
  {
  }

  // ----- what an acting thread may do to the others

  /** Still to be finished by its maker: not fully linked, or an unpublished head. */
  predicate InTheMaking(x: Node) {
    if x.isHead then x.linked == 0 else !x.full
  }

  predicate SameButOwner(x: Node, y: Node) {
    y == x.(owner := y.owner)
  }

  /** A thread only changes nodes it has locked or is making, and of those only what is its own business. */
  ghost predicate KeepsToItself(sh: Shared, sh': Shared, held: set<nat>, mine: Link) {
    && Grown(sh.nodes, sh'.nodes) && |sh.layers| <= |sh'.layers|
    && (forall n | 0 <= n < |sh.nodes| && n !in held && mine != To(n) :: SameButOwner(sh.nodes[n], sh'.nodes[n]))
    && (mine.To? && mine.id < |sh.nodes| && sh.nodes[mine.id].linked > 0 ==> LockedSame(sh.nodes[mine.id], sh'.nodes[mine.id]))
    && (forall n | 0 <= n < |sh.nodes| && n in held && InTheMaking(sh.nodes[n]) :: FreshSame(sh.nodes[n], sh'.nodes[n]))
    && (forall n | 0 <= n < |sh.nodes| && n !in held && sh.nodes[n].marked :: SameLayers(sh.layers, sh'.layers, n))
    && (sh'.head == sh.head || sh'.head >= |sh.nodes| || sh.nodes[sh'.head].linked == 0)
  }

  /** So every other thread's locks and unfinished node are respected. */
  lemma OthersRespected(s: State, t: nat, sh': Shared, u: nat)
    requires t in s.threads && u in s.threads && u != t
    requires NodesOk(s.shared.nodes) && LocksOk(s) && FreshApart(s) && ThreadOk(s.shared, s.threads[u])
    requires KeepsToItself(s.shared, sh', s.threads[t].held, Fresh(s.threads[t].pc))
    ensures Respects(s.shared, sh', s.threads[u].held, Fresh(s.threads[u].pc))
  {
    hide Neighbours, SearchedFor, KeysFit, AllValidated, VictimOk, OpOk, UnusedHead, CopiedHead;
    var sh, th, other := s.shared, s.threads[t], s.threads[u];
    HeldApart(s, t, u);
    forall n | 0 <= n < |sh.nodes| && n in other.held
      ensures LockedSame(sh.nodes[n], sh'.nodes[n])
    {
      assert Holds(s, u, n) && NodeOk(sh.nodes, n);
      if Fresh(th.pc) != To(n) { assert SameButOwner(sh.nodes[n], sh'.nodes[n]); }
    }
    MakingInTheMaking(sh, other);
    var mine := Fresh(other.pc);
    if mine.To? && mine.id < |sh.nodes| && mine.id !in th.held {
      assert SameButOwner(sh.nodes[mine.id], sh'.nodes[mine.id]);
    }
  }

  lemma HeldApart(s: State, t: nat, u: nat)
    requires LocksOk(s) && t in s.threads && u in s.threads && t != u
    ensures s.threads[t].held !! s.threads[u].held
  {
    forall n | n in s.threads[t].held
      ensures n !in s.threads[u].held
    {
      assert Holds(s, t, n);
      assert Holds(s, u, n) <==> OwnedBy(s.shared.nodes, n, u);
    }
  }

  lemma MakingInTheMaking(sh: Shared, th: Thread)
    requires ThreadOk(sh, th)
    ensures Fresh(th.pc).To? ==> Fresh(th.pc).id < |sh.nodes| && InTheMaking(sh.nodes[Fresh(th.pc).id])
  {
    hide Neighbours, SearchedFor, KeysFit, AllValidated, VictimOk, OpOk, UnusedHead, CopiedHead;
  }

  /** Putting a step together: the shared state keeps its invariant, the actor knows what it should, and keeps to itself. */
  lemma StepKeeps(s: State, t: nat, s': State, th': Thread)
    requires Inv(s) && t in s.threads && s'.threads == s.threads[t := th']
    requires NodesOk(s'.shared.nodes) && LayersOk(s'.shared) && NoneLost(s'.shared)
    requires LocksOk(s') && FreshApart(s') && HeadsOk(s')
    requires KeepsToItself(s.shared, s'.shared, s.threads[t].held, Fresh(s.threads[t].pc))
    requires ThreadOk(s'.shared, th')
    ensures Inv(s')
  {
    hide NodesOk, LayersOk, NoneLost, LocksOk, FreshApart, HeadsOk, KeepsToItself, ThreadOk, Respects;
    forall u | u in s'.threads
      ensures ThreadOk(s'.shared, s'.threads[u])
    {
      if u != t {
        OthersRespected(s, t, s'.shared, u);
        Stable(s.shared, s'.shared, s.threads[u]);
      }
    }
  }
}
