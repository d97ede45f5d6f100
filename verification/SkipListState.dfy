/** The concurrent skip list: shared nodes, what each thread remembers, and the invariant they keep. */
module SkipListState {

  datatype Link = Nil | To(id: nat)

  datatype Owner = Free | By(tid: nat)

  /**
   A node; its height is |skip|. The last field records a fact no code stores: how many layers, from the
   bottom, the node has been linked into.
   */
  datatype Node = Node(key: int, isHead: bool, skip: seq<Link>, marked: bool, full: bool, owner: Owner, linked: nat)

  /** Each layer's nodes in order, as following the links from the head finds them, is recorded in layers. */
  datatype Shared = Shared(nodes: seq<Node>, head: nat, layers: seq<seq<nat>>)

  datatype Op = Add | Remove | Unfinished(victim: nat)

  /** What an operation returns: addOrGetData a node and whether it is new, remove whether it removed one. */
  datatype Answer = None | Got(node: nat, added: bool) | Removed(node: nat) | NotRemoved

  /** Where a thread is in addOrGetData, remove or growHeight; between two of them it remembers the last answer. */
  datatype Pc =
    | Idle(last: Answer)
    | Begin(op: Op, data: int, top: nat)
    | Search(op: Op, data: int, top: nat, layer: nat, pred: nat, foundLayer: int, foundNode: nat,
             preds: seq<nat>, succs: seq<Link>)
    | Chosen(op: Op, data: int, top: nat, foundLayer: int, preds: seq<nat>, succs: seq<Link>)
    | Await(node: nat)
    | Claim(data: int, victim: nat, preds: seq<nat>, succs: seq<Link>)
    | Claimed(data: int, victim: nat, preds: seq<nat>, succs: seq<Link>)
    | Lock(op: Op, data: int, height: nat, layer: nat, preds: seq<nat>, succs: seq<Link>)
    | Check(op: Op, data: int, height: nat, layer: nat, preds: seq<nat>, succs: seq<Link>)
    | LinkIn(data: int, node: nat, k: nat, stored: bool, preds: seq<nat>, succs: seq<Link>)
    | Unlink(data: int, victim: nat, k: nat, preds: seq<nat>, succs: seq<Link>)
    | Finish(answer: Answer)
    | Grow(oldHead: nat, node: nat)
    | GrowLocked(oldHead: nat, node: nat)
    | GrowCopied(oldHead: nat, node: nat)
    | GrowSwapped(oldHead: nat)

  datatype Thread = Thread(pc: Pc, held: set<nat>)

  datatype State = State(shared: Shared, threads: map<nat, Thread>)

  // ----- chains

  /** The node before position i of a chain: the head or the element before. */
  function Before(head: nat, ids: seq<nat>, i: nat): nat
    requires i <= |ids|
  {
    if i == 0 then head else ids[i - 1]
  }

  function LinkAt(ids: seq<nat>, i: nat): Link
    requires i <= |ids|
  {
    if i < |ids| then To(ids[i]) else Nil
  }

  predicate HasLink(nodes: seq<Node>, n: nat, l: nat, link: Link) {
    n < |nodes| && l < |nodes[n].skip| && nodes[n].skip[l] == link
  }

  /** Following the links of layer l from the head visits exactly ids. */
  ghost predicate IsChain(nodes: seq<Node>, head: nat, l: nat, ids: seq<nat>) {
    forall i: nat | i <= |ids| :: HasLink(nodes, Before(head, ids, i), l, LinkAt(ids, i))
  }

  ghost predicate IsSorted(nodes: seq<Node>, ids: seq<nat>) {
    && (forall i | 0 <= i < |ids| :: ids[i] < |nodes|)
    && (forall i, j | 0 <= i < j < |ids| :: nodes[ids[i]].key < nodes[ids[j]].key)
  }

  predicate InLayer(layers: seq<seq<nat>>, l: nat, n: nat) {
    l < |layers| && n in layers[l]
  }

  // ----- the invariant on nodes and layers

  predicate LinkOk(nodes: seq<Node>, n: nat, l: nat)
    requires n < |nodes| && l < |nodes[n].skip|
  {
    var x := nodes[n];
    x.skip[l].To? ==>
      var m := x.skip[l].id;
      && m < |nodes| && !nodes[m].isHead && l < nodes[m].linked
      && (x.isHead || x.key < nodes[m].key)
  }

  predicate NodeOk(nodes: seq<Node>, n: nat)
    requires n < |nodes|
  {
    var x := nodes[n];
    && 0 < |x.skip| && x.linked <= |x.skip|
    && (x.full ==> x.linked == |x.skip|)
    && (!x.isHead && x.marked ==> x.full)
    && (x.isHead ==> x.linked == 0 || x.linked == |x.skip|)
    && (x.owner.By? ==> x.linked > 0)
    && (forall l | 0 <= l < |x.skip| :: LinkOk(nodes, n, l))
  }

  ghost predicate NodesOk(nodes: seq<Node>) {
    forall n | 0 <= n < |nodes| :: NodeOk(nodes, n)
  }

  ghost predicate LayersOk(sh: Shared) {
    && sh.head < |sh.nodes| && sh.nodes[sh.head].isHead && !sh.nodes[sh.head].marked
    && sh.nodes[sh.head].linked == |sh.nodes[sh.head].skip| == |sh.layers|
    && (forall l | 0 <= l < |sh.layers| :: IsChain(sh.nodes, sh.head, l, sh.layers[l]))
    && (forall l: nat, n: nat | InLayer(sh.layers, l, n) ::
          n < |sh.nodes| && !sh.nodes[n].isHead && l < sh.nodes[n].linked)
    && (forall l: nat, m: nat, n: nat | l < m && InLayer(sh.layers, m, n) :: InLayer(sh.layers, l, n))
  }

  /** A node is in every layer it was linked into for as long as it is not marked. */
  ghost predicate Present(sh: Shared, n: nat)
    requires n < |sh.nodes|
  {
    var x := sh.nodes[n];
    !x.isHead && !x.marked ==> forall l: nat | l < x.linked :: InLayer(sh.layers, l, n)
  }

  ghost predicate NoneLost(sh: Shared) {
    forall n | 0 <= n < |sh.nodes| :: Present(sh, n)
  }

  // ----- what threads know

  /** A node that may stand left of data at layer l. */
  predicate LeftOf(nodes: seq<Node>, p: nat, l: nat, data: int) {
    p < |nodes| && l < nodes[p].linked && (nodes[p].isHead || nodes[p].key < data)
  }

  predicate RightOf(nodes: seq<Node>, link: Link, l: nat, data: int, found: bool) {
    link.To? ==>
      var m := link.id;
      && m < |nodes| && !nodes[m].isHead && l < nodes[m].linked
      && (if found then nodes[m].key == data else data < nodes[m].key)
  }

  /** The neighbours recorded for layers lo and up. */
  ghost predicate Neighbours(nodes: seq<Node>, data: int, lo: nat, foundLayer: int, preds: seq<nat>, succs: seq<Link>) {
    && |preds| == |succs|
    && forall l | lo <= l < |preds| ::
         LeftOf(nodes, preds[l], l, data) && RightOf(nodes, succs[l], l, data, l <= foundLayer)
         && (l <= foundLayer ==> succs[l].To?)
  }

  /** A thread holds the lock of a predecessor, and has seen it unmarked with the link it expects. */
  predicate Validated(nodes: seq<Node>, held: set<nat>, l: nat, pred: nat, succ: Link) {
    && pred in held && pred < |nodes| && !nodes[pred].marked
    && HasLink(nodes, pred, l, succ)
  }

  ghost predicate AllValidated(nodes: seq<Node>, held: set<nat>, lo: nat, hi: nat, preds: seq<nat>, succs: seq<Link>) {
    hi <= |preds| == |succs| && forall l | lo <= l < hi :: Validated(nodes, held, l, preds[l], succs[l])
  }

  /** The victim of a removal: marked by this thread, which holds its lock, and still in its layers below k. */
  ghost predicate VictimOk(sh: Shared, held: set<nat>, victim: nat, data: int, k: nat) {
    && victim < |sh.nodes| && victim in held
    && var x := sh.nodes[victim];
       && !x.isHead && x.marked && x.full && x.key == data && k <= |x.skip| <= |sh.layers|
       && (forall l: nat :: InLayer(sh.layers, l, victim) <==> l < k)
  }

  ghost predicate OpOk(sh: Shared, held: set<nat>, op: Op, data: int, top: nat) {
    op.Unfinished? ==>
      && op.victim < |sh.nodes| && |sh.nodes[op.victim].skip| <= top + 1
      && VictimOk(sh, held, op.victim, data, |sh.nodes[op.victim].skip|)
  }

  /** A head node that has not been published yet, taller than the one it is to replace. */
  predicate PrivateHead(nodes: seq<Node>, node: nat, oldHead: nat) {
    && node < |nodes| && nodes[node].isHead && nodes[node].linked == 0 && node != oldHead
    && oldHead < |nodes| && nodes[oldHead].isHead && 0 < nodes[oldHead].linked == |nodes[oldHead].skip| < |nodes[node].skip|
  }

  ghost predicate ThreadOk(sh: Shared, th: Thread) {
    match th.pc
    case Idle(_) => true
    case Begin(op, data, top) => top < |sh.layers| && OpOk(sh, th.held, op, data, top)
    case Search(op, data, top, layer, pred, foundLayer, foundNode, preds, succs) =>
      && layer <= top < |sh.layers| && |preds| == top + 1 && OpOk(sh, th.held, op, data, top)
      && LeftOf(sh.nodes, pred, layer, data)
      && -1 <= foundLayer <= top && (foundLayer >= 0 ==> layer < foundLayer && RightOf(sh.nodes, To(foundNode), foundLayer, data, true))
      && Neighbours(sh.nodes, data, layer + 1, foundLayer, preds, succs)
    case Chosen(op, data, top, foundLayer, preds, succs) =>
      && top < |sh.layers| && |preds| == top + 1 && OpOk(sh, th.held, op, data, top)
      && -1 <= foundLayer <= top
      && Neighbours(sh.nodes, data, 0, foundLayer, preds, succs)
    case Await(node) => node < |sh.nodes| && !sh.nodes[node].isHead && sh.nodes[node].linked > 0
    case Claim(data, victim, preds, succs) =>
      && victim < |sh.nodes| && !sh.nodes[victim].isHead && sh.nodes[victim].full && sh.nodes[victim].key == data
      && |sh.nodes[victim].skip| <= |preds| && SearchedFor(sh.nodes, data, preds, succs)
    case Claimed(data, victim, preds, succs) =>
      && victim < |sh.nodes| && !sh.nodes[victim].isHead && sh.nodes[victim].full && sh.nodes[victim].key == data
      && victim in th.held
      && |sh.nodes[victim].skip| <= |preds| && SearchedFor(sh.nodes, data, preds, succs)
    case Lock(op, data, height, layer, preds, succs) =>
      && !op.Remove? && layer < height <= |preds| && HeightOk(sh, op, height) && OpOk(sh, th.held, op, data, height - 1)
      && KeysFit(sh.nodes, op, data, preds, succs)
      && AllValidated(sh.nodes, th.held, 0, layer, preds, succs)
    case Check(op, data, height, layer, preds, succs) =>
      && !op.Remove? && layer < height <= |preds| && HeightOk(sh, op, height) && OpOk(sh, th.held, op, data, height - 1)
      && KeysFit(sh.nodes, op, data, preds, succs) && preds[layer] in th.held
      && AllValidated(sh.nodes, th.held, 0, layer, preds, succs)
    case LinkIn(data, node, k, stored, preds, succs) =>
      && NewNode(sh.nodes, node, data, k) && |sh.nodes[node].skip| <= |preds| && node !in th.held
      && KeysFit(sh.nodes, Add, data, preds, succs)
      && AllValidated(sh.nodes, th.held, k, |sh.nodes[node].skip|, preds, succs)
      && node !in preds && (stored ==> k < |sh.nodes[node].skip| && sh.nodes[node].skip[k] == succs[k])
    case Unlink(data, victim, k, preds, succs) =>
      && VictimOk(sh, th.held, victim, data, k) && k <= |preds|
      && KeysFit(sh.nodes, Unfinished(victim), data, preds, succs)
      && AllValidated(sh.nodes, th.held, 0, k, preds, succs)
    case Finish(answer) =>
      answer.Removed? ==> answer.node < |sh.nodes| && VictimOk(sh, th.held, answer.node, sh.nodes[answer.node].key, 0)
    case Grow(oldHead, node) => PrivateHead(sh.nodes, node, oldHead) && UnusedHead(sh.nodes, node)
    case GrowLocked(oldHead, node) =>
      PrivateHead(sh.nodes, node, oldHead) && UnusedHead(sh.nodes, node) && oldHead in th.held
    case GrowCopied(oldHead, node) =>
      && PrivateHead(sh.nodes, node, oldHead) && oldHead in th.held && CopiedHead(sh.nodes, node, oldHead)
    case GrowSwapped(oldHead) =>
      && oldHead < |sh.nodes| && oldHead in th.held && oldHead != sh.head
      && sh.nodes[oldHead].isHead && sh.nodes[oldHead].linked > 0
  }

  predicate UnusedHead(nodes: seq<Node>, node: nat) {
    node < |nodes| && !nodes[node].marked && forall l | 0 <= l < |nodes[node].skip| :: nodes[node].skip[l] == Nil
  }

  predicate CopiedHead(nodes: seq<Node>, node: nat, oldHead: nat) {
    && node < |nodes| && oldHead < |nodes| && nodes[node].marked == nodes[oldHead].marked
    && forall l | 0 <= l < |nodes[node].skip| ::
         nodes[node].skip[l] == if l < |nodes[oldHead].skip| then nodes[oldHead].skip[l] else Nil
  }

  /** Found neighbours may hold the key itself on the right. */
  ghost predicate SearchedFor(nodes: seq<Node>, data: int, preds: seq<nat>, succs: seq<Link>) {
    |preds| == |succs| && forall l | 0 <= l < |preds| ::
                            LeftOf(nodes, preds[l], l, data)
                            && (RightOf(nodes, succs[l], l, data, true) || RightOf(nodes, succs[l], l, data, false))
  }

  /** Neighbours with which an operation may go on to change the list. */
  ghost predicate KeysFit(nodes: seq<Node>, op: Op, data: int, preds: seq<nat>, succs: seq<Link>) {
    if op.Add? then Neighbours(nodes, data, 0, -1, preds, succs) else SearchedFor(nodes, data, preds, succs)
  }

  predicate HeightOk(sh: Shared, op: Op, height: nat) {
    0 < height && (op.Unfinished? ==> op.victim < |sh.nodes| && height == |sh.nodes[op.victim].skip|)
  }

  /** A node being linked in, so far into the layers below k. */
  predicate NewNode(nodes: seq<Node>, node: nat, data: int, k: nat) {
    node < |nodes| && !nodes[node].isHead && !nodes[node].full && !nodes[node].marked
    && nodes[node].key == data && nodes[node].linked == k <= |nodes[node].skip|
  }

  /** The node that only this thread may finish, if there is one. */
  function Fresh(pc: Pc): Link {
    match pc
    case LinkIn(_, node, _, _, _, _) => To(node)
    case Grow(_, node) => To(node)
    case GrowLocked(_, node) => To(node)
    case GrowCopied(_, node) => To(node)
    case _ => Nil
  }

  predicate Holds(s: State, t: nat, n: nat) {
    t in s.threads && n in s.threads[t].held
  }

  predicate OwnedBy(nodes: seq<Node>, n: nat, t: nat) {
    n < |nodes| && nodes[n].owner == By(t)
  }

  /** Locks and threads agree about who holds what. */
  ghost predicate LocksOk(s: State) {
    forall t: nat, n: nat :: Holds(s, t, n) <==> OwnedBy(s.shared.nodes, n, t)
  }

  ghost predicate FreshApart(s: State) {
    forall t, u | t in s.threads && u in s.threads && t != u && Fresh(s.threads[t].pc).To? ::
      Fresh(s.threads[t].pc) != Fresh(s.threads[u].pc)
  }

  /** A published head that is not marked is the head, or its lock is held by the thread about to mark it. */
  ghost predicate HeadsOk(s: State) {
    forall n | 0 <= n < |s.shared.nodes| ::
      s.shared.nodes[n].isHead && s.shared.nodes[n].linked > 0 && !s.shared.nodes[n].marked ==>
        || n == s.shared.head
        || (s.shared.nodes[n].owner.By? && s.shared.nodes[n].owner.tid in s.threads
            && s.threads[s.shared.nodes[n].owner.tid].pc == GrowSwapped(n))
  }

  ghost predicate ThreadsOk(s: State) {
    forall t | t in s.threads :: ThreadOk(s.shared, s.threads[t])
  }

  ghost predicate Inv(s: State) {
    && NodesOk(s.shared.nodes)
    && LayersOk(s.shared)
    && NoneLost(s.shared)
    && LocksOk(s)
    && FreshApart(s)
    && HeadsOk(s)
    && ThreadsOk(s)
  }
}
