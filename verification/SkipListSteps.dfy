/** What one thread may do next, one read, write or lock operation at a time. */
module SkipListSteps {
  import opened SkipListState

  function WithThread(s: State, t: nat, th: Thread): State {
    s.(threads := s.threads[t := th])
  }

  function WithPc(s: State, t: nat, pc: Pc): State
    requires t in s.threads
  {
    WithThread(s, t, s.threads[t].(pc := pc))
  }

  function SetSkip(nodes: seq<Node>, n: nat, l: nat, link: Link): seq<Node>
    requires n < |nodes| && l < |nodes[n].skip|
  {
    nodes[n := nodes[n].(skip := nodes[n].skip[l := link])]
  }

  function SetOwner(nodes: seq<Node>, n: nat, owner: Owner): seq<Node>
    requires n < |nodes|
  {
    nodes[n := nodes[n].(owner := owner)]
  }

  /** Frees the locks of a set of nodes. */
  function FreeAll(nodes: seq<Node>, held: set<nat>): (r: seq<Node>)
    ensures |r| == |nodes|
    ensures forall n | 0 <= n < |nodes| :: r[n] == if n in held then nodes[n].(owner := Free) else nodes[n]
  {
    seq(|nodes|, n requires 0 <= n < |nodes| => if n in held then nodes[n].(owner := Free) else nodes[n])
  }

  function Nils(n: nat): (r: seq<Link>)
    ensures |r| == n && forall l | 0 <= l < n :: r[l] == Nil
  {
    seq(n, l => Nil)
  }

  function NewHeadOrNode(key: int, height: nat, isHead: bool): Node {
    Node(key, isHead, Nils(height), false, false, Free, 0)
  }

  function IndexOf(ids: seq<nat>, n: nat): (i: nat)
    ensures i <= |ids|
    ensures n in ids ==> i < |ids| && ids[i] == n
    ensures n !in ids ==> i == |ids|
  {
    if ids == [] || ids[0] == n then 0 else 1 + IndexOf(ids[1..], n)
  }

  /** n put right behind pred, which is the head or one of ids. */
  function InsertAfter(head: nat, ids: seq<nat>, pred: nat, n: nat): seq<nat> {
    var i := if pred == head then 0 else if pred in ids then IndexOf(ids, pred) + 1 else |ids|;
    ids[..i] + [n] + ids[i..]
  }

  function Without(ids: seq<nat>, n: nat): seq<nat> {
    if n in ids then ids[..IndexOf(ids, n)] + ids[IndexOf(ids, n) + 1..] else ids
  }

  function MaxLayer(sh: Shared): nat
    requires sh.head < |sh.nodes|
  {
    if |sh.nodes[sh.head].skip| == 0 then 0 else |sh.nodes[sh.head].skip| - 1
  }

  // ----- starting and searching

  predicate Start(s: State, t: nat, s': State, op: Op, data: int) {
    && t in s.threads && s.threads[t].pc.Idle? && !op.Unfinished? && s.shared.head < |s.shared.nodes|
    && s' == WithPc(s, t, Begin(op, data, MaxLayer(s.shared)))
  }

  /** Reads the head a second time: it may have grown since its height was read. */
  predicate Enter(s: State, t: nat, s': State) {
    && t in s.threads && s.threads[t].pc.Begin?
    && var pc := s.threads[t].pc;
       s' == WithPc(s, t, Search(pc.op, pc.data, pc.top, pc.top, s.shared.head, -1, 0,
                                 seq(pc.top + 1, i => 0), Nils(pc.top + 1)))
  }

  /** One link is read: the search moves right, or records the layer's neighbours and moves down. */
  predicate Scan(s: State, t: nat, s': State) {
    && t in s.threads && s.threads[t].pc.Search?
    && var pc, nodes := s.threads[t].pc, s.shared.nodes;
       && pc.pred < |nodes| && pc.layer < |nodes[pc.pred].skip| && pc.layer < |pc.preds| == |pc.succs|
       && var node := nodes[pc.pred].skip[pc.layer];
          && (node.To? ==> node.id < |nodes|)
          && if node.To? && nodes[node.id].key < pc.data then
               s' == WithPc(s, t, pc.(pred := node.id))
             else
               var hit := pc.foundLayer == -1 && node.To? && nodes[node.id].key == pc.data;
               var foundLayer := if hit then pc.layer else pc.foundLayer;
               var foundNode := if hit then node.id else pc.foundNode;
               var preds := pc.preds[pc.layer := pc.pred];
               var succs := pc.succs[pc.layer := if foundLayer >= 0 then To(foundNode) else node];
               s' == WithPc(s, t, if pc.layer == 0 then Chosen(pc.op, pc.data, pc.top, foundLayer, preds, succs)
                                  else Search(pc.op, pc.data, pc.top, pc.layer - 1, pc.pred, foundLayer, foundNode, preds, succs))
  }

  // ----- deciding what to do with the neighbours found

  /** An add that found its key retries if the node is going away. */
  predicate AddFound(s: State, t: nat, s': State) {
    && t in s.threads && s.threads[t].pc.Chosen? && s.threads[t].pc.op.Add? && s.shared.head < |s.shared.nodes|
    && var pc := s.threads[t].pc;
       && 0 <= pc.foundLayer < |pc.succs| && pc.succs[pc.foundLayer].To? && pc.succs[pc.foundLayer].id < |s.shared.nodes|
       && var node := s.shared.nodes[pc.succs[pc.foundLayer].id];
          s' == WithPc(s, t, if node.marked then Begin(Add, pc.data, MaxLayer(s.shared)) else Await(pc.succs[pc.foundLayer].id))
  }

  /** Otherwise it waits until the node is fully linked, marked meanwhile or not. */
  predicate AddReturn(s: State, t: nat, s': State) {
    && t in s.threads && s.threads[t].pc.Await?
    && var node := s.threads[t].pc.node;
       node < |s.shared.nodes| && s.shared.nodes[node].full && s' == WithPc(s, t, Idle(Got(node, false)))
  }

  /** A new node gets any height up to that of the list when the search began. */
  predicate AddMissing(s: State, t: nat, s': State, height: nat) {
    && t in s.threads && s.threads[t].pc.Chosen? && s.threads[t].pc.op.Add?
    && var pc := s.threads[t].pc;
       && pc.foundLayer < 0 && 0 < height <= pc.top + 1
       && s' == WithPc(s, t, Lock(Add, pc.data, height, 0, pc.preds, pc.succs))
  }

  predicate OkToDelete(nodes: seq<Node>, candidate: nat, layer: int) {
    candidate < |nodes| && nodes[candidate].full && |nodes[candidate].skip| - 1 == layer && !nodes[candidate].marked
  }

  predicate RemoveFirst(s: State, t: nat, s': State) {
    && t in s.threads && s.threads[t].pc.Chosen? && s.threads[t].pc.op.Remove?
    && var pc := s.threads[t].pc;
       && (pc.foundLayer >= 0 ==> pc.foundLayer < |pc.succs| && pc.succs[pc.foundLayer].To?)
       && s' == WithPc(s, t, if pc.foundLayer < 0 || !OkToDelete(s.shared.nodes, pc.succs[pc.foundLayer].id, pc.foundLayer)
                             then Idle(NotRemoved)
                             else Claim(pc.data, pc.succs[pc.foundLayer].id, pc.preds, pc.succs))
  }

  predicate RemoveAgain(s: State, t: nat, s': State) {
    && t in s.threads && s.threads[t].pc.Chosen? && s.threads[t].pc.op.Unfinished?
    && var pc := s.threads[t].pc;
       && pc.op.victim < |s.shared.nodes|
       && s' == WithPc(s, t, Lock(pc.op, pc.data, |s.shared.nodes[pc.op.victim].skip|, 0, pc.preds, pc.succs))
  }

  // ----- locks

  /** Takes a free lock. */
  function Taking(s: State, t: nat, n: nat, pc: Pc): State
    requires t in s.threads && n < |s.shared.nodes|
  {
    State(s.shared.(nodes := SetOwner(s.shared.nodes, n, By(t))),
          s.threads[t := Thread(pc, s.threads[t].held + {n})])
  }

  predicate CanTake(s: State, n: nat) {
    n < |s.shared.nodes| && s.shared.nodes[n].owner == Free
  }

  predicate TakeVictim(s: State, t: nat, s': State) {
    && t in s.threads && s.threads[t].pc.Claim?
    && var pc := s.threads[t].pc;
       CanTake(s, pc.victim) && s' == Taking(s, t, pc.victim, Claimed(pc.data, pc.victim, pc.preds, pc.succs))
  }

  /** A victim that somebody else has marked meanwhile is let go. */
  predicate MarkVictim(s: State, t: nat, s': State) {
    && t in s.threads && s.threads[t].pc.Claimed?
    && var pc, nodes := s.threads[t].pc, s.shared.nodes;
       && pc.victim < |nodes|
       && if nodes[pc.victim].marked then s' == WithPc(s, t, Finish(NotRemoved))
          else s' == WithPc(s.(shared := s.shared.(nodes := nodes[pc.victim := nodes[pc.victim].(marked := true)])), t,
                            Lock(Unfinished(pc.victim), pc.data, |nodes[pc.victim].skip|, 0, pc.preds, pc.succs))
  }

  /** Locks the predecessor at a layer, unless the layer below had the same one. */
  predicate TakePred(s: State, t: nat, s': State) {
    && t in s.threads && s.threads[t].pc.Lock?
    && var pc := s.threads[t].pc;
       && pc.layer < |pc.preds|
       && var next := Check(pc.op, pc.data, pc.height, pc.layer, pc.preds, pc.succs);
          if pc.layer > 0 && pc.preds[pc.layer - 1] == pc.preds[pc.layer] then s' == WithPc(s, t, next)
          else CanTake(s, pc.preds[pc.layer]) && s' == Taking(s, t, pc.preds[pc.layer], next)
  }

  predicate PredValid(nodes: seq<Node>, op: Op, layer: nat, pred: nat, succ: Link) {
    && pred < |nodes| && !nodes[pred].marked && HasLink(nodes, pred, layer, succ)
    && (op.Add? && succ.To? ==> succ.id < |nodes| && !nodes[succ.id].marked)
  }

  /** What stays locked when the neighbours turn out to be stale: the marked victim, if there is one. */
  function Kept(op: Op): set<nat> {
    if op.Unfinished? then {op.victim} else {}
  }

  /** Checks the locked predecessor once more; stale neighbours are unlocked and searched again. */
  predicate TestPred(s: State, t: nat, s': State) {
    && t in s.threads && s.threads[t].pc.Check? && s.shared.head < |s.shared.nodes|
    && var pc, nodes, held := s.threads[t].pc, s.shared.nodes, s.threads[t].held;
       && pc.layer < |pc.preds| == |pc.succs|
       && if !PredValid(nodes, pc.op, pc.layer, pc.preds[pc.layer], pc.succs[pc.layer]) then
            s' == State(s.shared.(nodes := FreeAll(nodes, held - Kept(pc.op))),
                        s.threads[t := Thread(Begin(pc.op, pc.data, MaxLayer(s.shared)), held * Kept(pc.op))])
          else if pc.layer + 1 < pc.height then
            s' == WithPc(s, t, Lock(pc.op, pc.data, pc.height, pc.layer + 1, pc.preds, pc.succs))
          else if pc.op.Unfinished? then
            s' == WithPc(s, t, Unlink(pc.data, pc.op.victim, pc.height, pc.preds, pc.succs))
          else
            s' == WithPc(s.(shared := s.shared.(nodes := nodes + [NewHeadOrNode(pc.data, pc.height, false)])), t,
                         LinkIn(pc.data, |nodes|, 0, false, pc.preds, pc.succs))
  }

  predicate Release(s: State, t: nat, s': State) {
    && t in s.threads && s.threads[t].pc.Finish?
    && s' == State(s.shared.(nodes := FreeAll(s.shared.nodes, s.threads[t].held)),
                  s.threads[t := Thread(Idle(s.threads[t].pc.answer), {})])
  }

  // ----- link stores

  predicate StoreOwn(s: State, t: nat, s': State) {
    && t in s.threads && s.threads[t].pc.LinkIn?
    && var pc, nodes := s.threads[t].pc, s.shared.nodes;
       && !pc.stored && pc.node < |nodes| && pc.k < |nodes[pc.node].skip| && pc.k < |pc.succs|
       && s' == WithPc(s.(shared := s.shared.(nodes := SetSkip(nodes, pc.node, pc.k, pc.succs[pc.k]))), t,
                       pc.(stored := true))
  }

  /** The store that puts a new node into layer k. */
  function LinkedIn(sh: Shared, pred: nat, k: nat, node: nat): Shared
    requires pred < |sh.nodes| && k < |sh.nodes[pred].skip| && node < |sh.nodes| && k < |sh.layers|
  {
    var nodes := SetSkip(sh.nodes, pred, k, To(node));
    Shared(nodes[node := nodes[node].(linked := k + 1)], sh.head,
           sh.layers[k := InsertAfter(sh.head, sh.layers[k], pred, node)])
  }

  predicate StorePred(s: State, t: nat, s': State) {
    && t in s.threads && s.threads[t].pc.LinkIn?
    && var pc, sh := s.threads[t].pc, s.shared;
       && pc.stored && pc.node < |sh.nodes| && pc.k < |pc.preds| && pc.k < |sh.layers|
       && pc.preds[pc.k] < |sh.nodes| && pc.k < |sh.nodes[pc.preds[pc.k]].skip|
       && s' == WithPc(s.(shared := LinkedIn(sh, pc.preds[pc.k], pc.k, pc.node)), t, pc.(k := pc.k + 1, stored := false))
  }

  predicate SetFull(s: State, t: nat, s': State) {
    && t in s.threads && s.threads[t].pc.LinkIn?
    && var pc, nodes := s.threads[t].pc, s.shared.nodes;
       && pc.node < |nodes| && !pc.stored && pc.k == |nodes[pc.node].skip|
       && s' == WithPc(s.(shared := s.shared.(nodes := nodes[pc.node := nodes[pc.node].(full := true)])), t,
                       Finish(Got(pc.node, true)))
  }

  /** The store that takes the victim out of layer k. */
  function UnlinkedFrom(sh: Shared, pred: nat, k: nat, victim: nat): Shared
    requires pred < |sh.nodes| && k < |sh.nodes[pred].skip| && victim < |sh.nodes| && k < |sh.nodes[victim].skip|
    requires k < |sh.layers|
  {
    Shared(SetSkip(sh.nodes, pred, k, sh.nodes[victim].skip[k]), sh.head, sh.layers[k := Without(sh.layers[k], victim)])
  }

  predicate StoreUnlink(s: State, t: nat, s': State) {
    && t in s.threads && s.threads[t].pc.Unlink?
    && var pc, sh := s.threads[t].pc, s.shared;
       if pc.k == 0 then s' == WithPc(s, t, Finish(Removed(pc.victim)))
       else
         var k := pc.k - 1;
         && pc.victim < |sh.nodes| && k < |sh.nodes[pc.victim].skip| && k < |pc.preds| && k < |sh.layers|
         && pc.preds[k] < |sh.nodes| && k < |sh.nodes[pc.preds[k]].skip|
         && s' == WithPc(s.(shared := UnlinkedFrom(sh, pc.preds[k], k, pc.victim)), t, pc.(k := k))
  }

  // ----- growing the head

  predicate GrowStart(s: State, t: nat, s': State, height: nat) {
    && t in s.threads && s.threads[t].pc.Idle? && s.shared.head < |s.shared.nodes|
    && |s.shared.nodes[s.shared.head].skip| < height
    && s' == WithPc(s.(shared := s.shared.(nodes := s.shared.nodes + [NewHeadOrNode(0, height, true)])), t,
                    Grow(s.shared.head, |s.shared.nodes|))
  }

  predicate GrowLock(s: State, t: nat, s': State) {
    && t in s.threads && s.threads[t].pc.Grow?
    && var pc := s.threads[t].pc;
       CanTake(s, pc.oldHead) && s' == Taking(s, t, pc.oldHead, GrowLocked(pc.oldHead, pc.node))
  }

  /** The new head gets the old one's flags and links. */
  function CopyHead(nodes: seq<Node>, node: nat, oldHead: nat): seq<Node>
    requires node < |nodes| && oldHead < |nodes| && |nodes[oldHead].skip| <= |nodes[node].skip|
  {
    nodes[node := nodes[node].(marked := nodes[oldHead].marked,
                               skip := nodes[oldHead].skip + nodes[node].skip[|nodes[oldHead].skip|..])]
  }

  predicate GrowCopy(s: State, t: nat, s': State) {
    && t in s.threads && s.threads[t].pc.GrowLocked?
    && var pc, nodes := s.threads[t].pc, s.shared.nodes;
       && pc.node < |nodes| && pc.oldHead < |nodes| && |nodes[pc.oldHead].skip| <= |nodes[pc.node].skip|
       && s' == WithPc(s.(shared := s.shared.(nodes := CopyHead(nodes, pc.node, pc.oldHead))), t,
                       GrowCopied(pc.oldHead, pc.node))
  }

  function Swapped(sh: Shared, node: nat): Shared
    requires node < |sh.nodes| && |sh.layers| <= |sh.nodes[node].skip|
  {
    Shared(sh.nodes[node := sh.nodes[node].(linked := |sh.nodes[node].skip|)], node,
           sh.layers + seq(|sh.nodes[node].skip| - |sh.layers|, i => []))
  }

  /** Publishes the new head unless somebody else has replaced the old one already. */
  predicate GrowSwap(s: State, t: nat, s': State) {
    && t in s.threads && s.threads[t].pc.GrowCopied?
    && var pc, sh := s.threads[t].pc, s.shared;
       if sh.head != pc.oldHead then s' == WithPc(s, t, Finish(None))
       else
         && pc.node < |sh.nodes| && |sh.layers| <= |sh.nodes[pc.node].skip|
         && s' == WithPc(s.(shared := Swapped(sh, pc.node)), t, GrowSwapped(pc.oldHead))
  }

  predicate GrowMark(s: State, t: nat, s': State) {
    && t in s.threads && s.threads[t].pc.GrowSwapped?
    && var pc, nodes := s.threads[t].pc, s.shared.nodes;
       && pc.oldHead < |nodes|
       && s' == WithPc(s.(shared := s.shared.(nodes := nodes[pc.oldHead := nodes[pc.oldHead].(marked := true)])), t,
                       Finish(None))
  }

  // ----- runs

  datatype Action =
    | ToStart(op: Op, data: int) | ToEnter | ToScan | ToAddFound | ToAddReturn | ToAddMissing(height: nat) | ToRemoveFirst | ToRemoveAgain
    | ToTakeVictim | ToMarkVictim | ToTakePred | ToTestPred | ToRelease
    | ToStoreOwn | ToStorePred | ToSetFull | ToStoreUnlink
    | ToGrowStart(height: nat) | ToGrowLock | ToGrowCopy | ToGrowSwap | ToGrowMark

  predicate Next(s: State, t: nat, a: Action, s': State) {
    match a
    case ToStart(op, data) => Start(s, t, s', op, data)
    case ToEnter => Enter(s, t, s')
    case ToScan => Scan(s, t, s')
    case ToAddFound => AddFound(s, t, s')
    case ToAddReturn => AddReturn(s, t, s')
    case ToAddMissing(height) => AddMissing(s, t, s', height)
    case ToRemoveFirst => RemoveFirst(s, t, s')
    case ToRemoveAgain => RemoveAgain(s, t, s')
    case ToTakeVictim => TakeVictim(s, t, s')
    case ToMarkVictim => MarkVictim(s, t, s')
    case ToTakePred => TakePred(s, t, s')
    case ToTestPred => TestPred(s, t, s')
    case ToRelease => Release(s, t, s')
    case ToStoreOwn => StoreOwn(s, t, s')
    case ToStorePred => StorePred(s, t, s')
    case ToSetFull => SetFull(s, t, s')
    case ToStoreUnlink => StoreUnlink(s, t, s')
    case ToGrowStart(height) => GrowStart(s, t, s', height)
    case ToGrowLock => GrowLock(s, t, s')
    case ToGrowCopy => GrowCopy(s, t, s')
    case ToGrowSwap => GrowSwap(s, t, s')
    case ToGrowMark => GrowMark(s, t, s')
  }

  /** An empty list of some height, and any number of threads with nothing to do. */
  predicate Init(s: State) {
    && |s.shared.nodes| == 1 && s.shared.head == 0
    && (var h := s.shared.nodes[0];
        && h.isHead && !h.marked && !h.full && h.owner == Free && 0 < |h.skip| == h.linked == |s.shared.layers|
        && (forall l | 0 <= l < |h.skip| :: h.skip[l] == Nil && s.shared.layers[l] == []))
    && (forall t | t in s.threads :: s.threads[t] == Thread(Idle(None), {}))
  }
}
