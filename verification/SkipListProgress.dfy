/** What a thread may have to wait for, and that whoever waits for a lock waits for somebody who can go on. */
module SkipListProgress {
  import opened SkipListState
  import opened SkipListSteps
  import opened SkipListProofs
  import opened SkipListRuns
  import opened SkipListOrder

  ghost predicate CanStep(s: State, t: nat) {
    exists a: Action, s': State :: Next(s, t, a, s')
  }

  /** An add that found its key waits until that node is fully linked. */
  predicate AwaitsLinking(nodes: seq<Node>, pc: Pc) {
    pc.Await? && pc.node < |nodes| && !nodes[pc.node].full
  }

  /** A thread needs a lock that somebody has. */
  predicate AwaitsLock(nodes: seq<Node>, th: Thread) {
    Wanted(th).To? && Wanted(th).id < |nodes| && nodes[Wanted(th).id].owner.By?
  }

  lemma SearchStep(s: State, t: nat)
    requires Inv(s) && t in s.threads
    requires var pc := s.threads[t].pc; pc.Idle? || pc.Begin? || pc.Search?
    ensures CanStep(s, t)
  {
    hide NoneLost, LocksOk, FreshApart, HeadsOk, LayersOk, OpOk;
    assert ThreadOk(s.shared, s.threads[t]);
    HeadInside(s);
    match s.threads[t].pc
    case Idle(_) => assert Next(s, t, ToStart(Add, 0), WithPc(s, t, Begin(Add, 0, MaxLayer(s.shared))));
    case Begin(op, data, top) =>
      assert Next(s, t, ToEnter, WithPc(s, t, Search(op, data, top, top, s.shared.head, -1, 0, seq(top + 1, i => 0), Nils(top + 1))));
    case Search(op, data, top, layer, pred, foundLayer, foundNode, preds, succs) =>
      var nodes := s.shared.nodes;
      assert NodeOk(nodes, pred) && LinkOk(nodes, pred, layer);
      ScanStep(s, t);
  }

  lemma HeadInside(s: State)
    requires LayersOk(s.shared)
    ensures s.shared.head < |s.shared.nodes|
  {
  }

  lemma ScanStep(s: State, t: nat)
    requires t in s.threads && s.threads[t].pc.Search?
    requires
      var pc, nodes := s.threads[t].pc, s.shared.nodes;
      && pc.pred < |nodes| && pc.layer < |nodes[pc.pred].skip| && pc.layer < |pc.preds| == |pc.succs|
      && (nodes[pc.pred].skip[pc.layer].To? ==> nodes[pc.pred].skip[pc.layer].id < |nodes|)
    ensures CanStep(s, t)
  {
    var pc, nodes := s.threads[t].pc, s.shared.nodes;
    var node := nodes[pc.pred].skip[pc.layer];
    if node.To? && nodes[node.id].key < pc.data {
      assert Next(s, t, ToScan, WithPc(s, t, pc.(pred := node.id)));
    } else {
      var hit := pc.foundLayer == -1 && node.To? && nodes[node.id].key == pc.data;
      var foundLayer := if hit then pc.layer else pc.foundLayer;
      var foundNode := if hit then node.id else pc.foundNode;
      var preds := pc.preds[pc.layer := pc.pred];
      var succs := pc.succs[pc.layer := if foundLayer >= 0 then To(foundNode) else node];
      assert Next(s, t, ToScan,
                  WithPc(s, t, if pc.layer == 0 then Chosen(pc.op, pc.data, pc.top, foundLayer, preds, succs)
                               else Search(pc.op, pc.data, pc.top, pc.layer - 1, pc.pred, foundLayer, foundNode, preds, succs)));
    }
  }

  lemma ChosenStep(s: State, t: nat)
    requires Inv(s) && t in s.threads && s.threads[t].pc.Chosen?
    ensures CanStep(s, t)
  {
    hide NodesOk, NoneLost, LocksOk, FreshApart, HeadsOk, LayersOk;
    assert ThreadOk(s.shared, s.threads[t]);
    HeadInside(s);
    var pc, nodes := s.threads[t].pc, s.shared.nodes;
    match pc.op
    case Add =>
      if pc.foundLayer < 0 {
        assert Next(s, t, ToAddMissing(1), WithPc(s, t, Lock(Add, pc.data, 1, 0, pc.preds, pc.succs)));
      } else {
        assert RightOf(nodes, pc.succs[pc.foundLayer], pc.foundLayer, pc.data, true);
        assert Next(s, t, ToAddFound, WithPc(s, t, if nodes[pc.succs[pc.foundLayer].id].marked
                                                   then Begin(Add, pc.data, MaxLayer(s.shared))
                                                   else Await(pc.succs[pc.foundLayer].id)));
      }
    case Remove =>
      assert Next(s, t, ToRemoveFirst,
                  WithPc(s, t, if pc.foundLayer < 0 || !OkToDelete(nodes, pc.succs[pc.foundLayer].id, pc.foundLayer)
                               then Idle(NotRemoved) else Claim(pc.data, pc.succs[pc.foundLayer].id, pc.preds, pc.succs)));
    case Unfinished(victim) =>
      assert Next(s, t, ToRemoveAgain, WithPc(s, t, Lock(pc.op, pc.data, |nodes[victim].skip|, 0, pc.preds, pc.succs)));
  }

  lemma AwaitStep(s: State, t: nat)
    requires Inv(s) && t in s.threads && s.threads[t].pc.Await?
    ensures CanStep(s, t) || AwaitsLinking(s.shared.nodes, s.threads[t].pc)
  {
    hide NodesOk, NoneLost, LocksOk, FreshApart, HeadsOk, LayersOk;
    assert ThreadOk(s.shared, s.threads[t]);
    if !AwaitsLinking(s.shared.nodes, s.threads[t].pc) {
      assert Next(s, t, ToAddReturn, WithPc(s, t, Idle(Got(s.threads[t].pc.node, false))));
    }
  }

  lemma LockStep(s: State, t: nat)
    requires Inv(s) && t in s.threads
    requires var pc := s.threads[t].pc; pc.Claim? || pc.Lock? || pc.Grow?
    ensures CanStep(s, t) || AwaitsLock(s.shared.nodes, s.threads[t])
  {
    hide NodesOk, NoneLost, LocksOk, FreshApart, HeadsOk, LayersOk, AllValidated;
    assert ThreadOk(s.shared, s.threads[t]);
    match s.threads[t].pc
    case Claim(data, victim, preds, succs) =>
      if CanTake(s, victim) { assert Next(s, t, ToTakeVictim, Taking(s, t, victim, Claimed(data, victim, preds, succs))); }
    case Grow(oldHead, node) =>
      if CanTake(s, oldHead) { assert Next(s, t, ToGrowLock, Taking(s, t, oldHead, GrowLocked(oldHead, node))); }
    case Lock(op, data, height, layer, preds, succs) =>
      assert LeftOf(s.shared.nodes, preds[layer], layer, data);
      var next := Check(op, data, height, layer, preds, succs);
      if layer > 0 && preds[layer - 1] == preds[layer] {
        assert Next(s, t, ToTakePred, WithPc(s, t, next));
      } else if CanTake(s, preds[layer]) {
        assert Next(s, t, ToTakePred, Taking(s, t, preds[layer], next));
      }
  }

  lemma CheckStep(s: State, t: nat)
    requires Inv(s) && t in s.threads && s.threads[t].pc.Check?
    ensures CanStep(s, t)
  {
    hide NodesOk, NoneLost, LocksOk, FreshApart, HeadsOk, LayersOk, AllValidated, OpOk, CanStep;
    assert ThreadOk(s.shared, s.threads[t]);
    HeadInside(s);
    TestStep(s, t);
  }

  lemma TestStep(s: State, t: nat)
    requires t in s.threads && s.threads[t].pc.Check? && s.shared.head < |s.shared.nodes|
    requires var pc := s.threads[t].pc; pc.layer < |pc.preds| == |pc.succs|
    ensures CanStep(s, t)
  {
    hide PredValid, FreeAll, NewHeadOrNode, MaxLayer, Kept;
    var pc, nodes, held := s.threads[t].pc, s.shared.nodes, s.threads[t].held;
    if !PredValid(nodes, pc.op, pc.layer, pc.preds[pc.layer], pc.succs[pc.layer]) {
      assert Next(s, t, ToTestPred, State(s.shared.(nodes := FreeAll(nodes, held - Kept(pc.op))),
                                          s.threads[t := Thread(Begin(pc.op, pc.data, MaxLayer(s.shared)), held * Kept(pc.op))]));
    } else if pc.layer + 1 < pc.height {
      assert Next(s, t, ToTestPred, WithPc(s, t, Lock(pc.op, pc.data, pc.height, pc.layer + 1, pc.preds, pc.succs)));
    } else if pc.op.Unfinished? {
      assert Next(s, t, ToTestPred, WithPc(s, t, Unlink(pc.data, pc.op.victim, pc.height, pc.preds, pc.succs)));
    } else {
      assert Next(s, t, ToTestPred, WithPc(s.(shared := s.shared.(nodes := nodes + [NewHeadOrNode(pc.data, pc.height, false)])), t,
                                           LinkIn(pc.data, |nodes|, 0, false, pc.preds, pc.succs)));
    }
  }

  lemma MarkStep(s: State, t: nat)
    requires Inv(s) && t in s.threads
    requires var pc := s.threads[t].pc; pc.Claimed? || pc.Finish?
    ensures CanStep(s, t)
  {
    hide NodesOk, NoneLost, LocksOk, FreshApart, HeadsOk, LayersOk, SearchedFor, FreeAll;
    assert ThreadOk(s.shared, s.threads[t]);
    var sh, nodes := s.shared, s.shared.nodes;
    match s.threads[t].pc
    case Claimed(data, victim, preds, succs) =>
      if nodes[victim].marked {
        assert Next(s, t, ToMarkVictim, WithPc(s, t, Finish(NotRemoved)));
      } else {
        assert Next(s, t, ToMarkVictim,
                    WithPc(s.(shared := sh.(nodes := nodes[victim := nodes[victim].(marked := true)])), t,
                           Lock(Unfinished(victim), data, |nodes[victim].skip|, 0, preds, succs)));
      }
    case Finish(answer) =>
      assert Next(s, t, ToRelease, State(sh.(nodes := FreeAll(nodes, s.threads[t].held)), s.threads[t := Thread(Idle(answer), {})]));
  }

  /** The layers reach as high as any validated predecessor. */
  lemma LayerThere(s: State, t: nat)
    requires Inv(s) && t in s.threads && s.threads[t].pc.LinkIn?
    requires var pc := s.threads[t].pc; pc.node < |s.shared.nodes| && pc.k < |s.shared.nodes[pc.node].skip|
    ensures var pc := s.threads[t].pc; pc.k < |pc.preds| && pc.k < |s.shared.layers|
  {
    hide NodesOk, NoneLost, LocksOk, FreshApart, HeadsOk, LayersOk;
    var pc, sh, held := s.threads[t].pc, s.shared, s.threads[t].held;
    assert ThreadOk(sh, s.threads[t]);
    assert Validated(sh.nodes, held, pc.k, pc.preds[pc.k], pc.succs[pc.k]);
    PredPresent(s, t, pc.preds[pc.k], pc.k, pc.data);
  }

  lemma LinkStep(s: State, t: nat)
    requires Inv(s) && t in s.threads && s.threads[t].pc.LinkIn?
    ensures CanStep(s, t)
  {
    hide NodesOk, NoneLost, LocksOk, FreshApart, HeadsOk, LayersOk, AllValidated, KeysFit;
    assert ThreadOk(s.shared, s.threads[t]);
    var pc, sh, nodes := s.threads[t].pc, s.shared, s.shared.nodes;
    if pc.stored {
      LayerThere(s, t);
      ReadyToLink(s, t);
      assert Next(s, t, ToStorePred,
                  WithPc(s.(shared := LinkedIn(sh, pc.preds[pc.k], pc.k, pc.node)), t, pc.(k := pc.k + 1, stored := false)));
    } else if pc.k < |nodes[pc.node].skip| {
      LayerThere(s, t);
      SuccsThere(s, t);
      assert Next(s, t, ToStoreOwn, WithPc(s.(shared := sh.(nodes := SetSkip(nodes, pc.node, pc.k, pc.succs[pc.k]))), t,
                                           pc.(stored := true)));
    } else {
      assert Next(s, t, ToSetFull,
                  WithPc(s.(shared := sh.(nodes := nodes[pc.node := nodes[pc.node].(full := true)])), t,
                         Finish(Got(pc.node, true))));
    }
  }

  lemma SuccsThere(s: State, t: nat)
    requires Inv(s) && t in s.threads && s.threads[t].pc.LinkIn?
    ensures |s.threads[t].pc.preds| == |s.threads[t].pc.succs|
  {
    assert ThreadOk(s.shared, s.threads[t]);
  }

  lemma UnlinkStep(s: State, t: nat)
    requires Inv(s) && t in s.threads && s.threads[t].pc.Unlink?
    ensures CanStep(s, t)
  {
    hide NodesOk, NoneLost, LocksOk, FreshApart, HeadsOk, LayersOk, AllValidated, KeysFit, VictimOk;
    var pc, sh := s.threads[t].pc, s.shared;
    if pc.k == 0 {
      assert Next(s, t, ToStoreUnlink, WithPc(s, t, Finish(Removed(pc.victim))));
    } else {
      ReadyToUnlink(s, t);
      var k := pc.k - 1;
      PredTall(sh, pc.preds[k], k);
      assert Next(s, t, ToStoreUnlink, WithPc(s.(shared := UnlinkedFrom(sh, pc.preds[k], k, pc.victim)), t,
                                              Unlink(pc.data, pc.victim, k, pc.preds, pc.succs)));
    }
  }

  lemma PredTall(sh: Shared, pred: nat, k: nat)
    requires NodesOk(sh.nodes) && pred < |sh.nodes| && k < sh.nodes[pred].linked
    ensures k < |sh.nodes[pred].skip|
  {
    assert NodeOk(sh.nodes, pred);
  }

  lemma HeadStep(s: State, t: nat)
    requires Inv(s) && t in s.threads
    requires var pc := s.threads[t].pc; pc.GrowLocked? || pc.GrowCopied? || pc.GrowSwapped?
    ensures CanStep(s, t)
  {
    hide NodesOk, NoneLost, LocksOk, FreshApart, HeadsOk;
    assert ThreadOk(s.shared, s.threads[t]);
    var sh, nodes := s.shared, s.shared.nodes;
    match s.threads[t].pc
    case GrowLocked(oldHead, node) =>
      assert Next(s, t, ToGrowCopy, WithPc(s.(shared := sh.(nodes := CopyHead(nodes, node, oldHead))), t, GrowCopied(oldHead, node)));
    case GrowCopied(oldHead, node) =>
      if sh.head != oldHead {
        assert Next(s, t, ToGrowSwap, WithPc(s, t, Finish(None)));
      } else {
        assert Next(s, t, ToGrowSwap, WithPc(s.(shared := Swapped(sh, node)), t, GrowSwapped(oldHead)));
      }
    case GrowSwapped(oldHead) =>
      assert Next(s, t, ToGrowMark,
                  WithPc(s.(shared := sh.(nodes := nodes[oldHead := nodes[oldHead].(marked := true)])), t,
                         Finish(None)));
  }

  /** The only waits are for a lock and for a node to be fully linked. */
  lemma OnlyTwoWaits(s: State, t: nat)
    requires Inv(s) && t in s.threads
    ensures CanStep(s, t) || AwaitsLock(s.shared.nodes, s.threads[t]) || AwaitsLinking(s.shared.nodes, s.threads[t].pc)
  {
    hide Inv, CanStep, AwaitsLock, AwaitsLinking;
    var pc := s.threads[t].pc;
    if pc.Idle? || pc.Begin? || pc.Search? { SearchStep(s, t); }
    if pc.Chosen? { ChosenStep(s, t); }
    if pc.Await? { AwaitStep(s, t); }
    if pc.Claim? || pc.Lock? || pc.Grow? { LockStep(s, t); }
    if pc.Check? { CheckStep(s, t); }
    if pc.Claimed? || pc.Finish? { MarkStep(s, t); }
    if pc.LinkIn? { LinkStep(s, t); }
    if pc.Unlink? { UnlinkStep(s, t); }
    if pc.GrowLocked? || pc.GrowCopied? || pc.GrowSwapped? { HeadStep(s, t); }
  }

  // ----- nodes that are being linked in

  predicate Links(pc: Pc, n: nat) {
    pc.LinkIn? && pc.node == n
  }

  /** Whatever is not fully linked yet is in the hands of a thread that is linking it in. */
  ghost predicate InGoodHands(s: State, n: nat)
    requires n < |s.shared.nodes|
  {
    s.shared.nodes[n].isHead || s.shared.nodes[n].full || exists u: nat :: u in s.threads && Links(s.threads[u].pc, n)
  }

  ghost predicate AllInGoodHands(s: State) {
    forall n | 0 <= n < |s.shared.nodes| :: InGoodHands(s, n)
  }

  /** A thread that is linking a node in goes on until it is fully linked, and whoever adds a node begins to link it in. */
  lemma LinkingGoesOn(s: State, t: nat, a: Action, s': State)
    requires Next(s, t, a, s')
    requires t in s.threads && t in s'.threads && |s.shared.nodes| <= |s'.shared.nodes|
    ensures
      forall n | 0 <= n < |s.shared.nodes| ::
        && (s.shared.nodes[n].full ==> s'.shared.nodes[n].full)
        && (Links(s.threads[t].pc, n) ==> Links(s'.threads[t].pc, n) || s'.shared.nodes[n].full)
    ensures
      forall n | |s.shared.nodes| <= n < |s'.shared.nodes| :: s'.shared.nodes[n].isHead || Links(s'.threads[t].pc, n)
  {
    hide PredValid, MaxLayer, Kept, OkToDelete, InsertAfter, Without, Nils;
  }

  lemma NextInGoodHands(s: State, t: nat, a: Action, s': State)
    requires AllInGoodHands(s) && Next(s, t, a, s')
    ensures AllInGoodHands(s')
  {
    hide Next, Links;
    NextKeysKept(s, t, a, s');
    LinkingGoesOn(s, t, a, s');
    forall n | 0 <= n < |s'.shared.nodes|
      ensures InGoodHands(s', n)
    {
      if n < |s.shared.nodes| && !s'.shared.nodes[n].isHead && !s'.shared.nodes[n].full {
        assert InGoodHands(s, n);
        var u: nat :| u in s.threads && Links(s.threads[u].pc, n);
        assert u in s'.threads && Links(s'.threads[u].pc, n);
      }
    }
  }

  lemma {:induction false} RunInGoodHands(states: seq<State>, moves: seq<Move>, i: nat)
    requires IsRun(states, moves) && i < |states|
    ensures AllInGoodHands(states[i])
  {
    hide Next, AllInGoodHands;
    if i == 0 {
      StartInGoodHands(states[0]);
    } else {
      RunInGoodHands(states, moves, i - 1);
      NextInGoodHands(states[i - 1], moves[i - 1].thread, moves[i - 1].action, states[i]);
    }
  }

  lemma StartInGoodHands(s: State)
    requires Init(s)
    ensures AllInGoodHands(s)
  {
  }

  // ----- following the threads that wait

  /** u holds the lock that t needs next, or is linking in the node that t waits for. */
  predicate Delays(s: State, t: nat, u: nat) {
    && t in s.threads && u in s.threads
    && (WaitsFor(s, t, u)
        || (AwaitsLinking(s.shared.nodes, s.threads[t].pc) && Links(s.threads[u].pc, s.threads[t].pc.node)))
  }

  /** A thread, one that delays it, one that delays that one, and so on to one that can go on. */
  ghost predicate LeadsOn(s: State, path: seq<nat>) {
    && path != [] && (forall i | 0 < i < |path| :: Delays(s, path[i - 1], path[i]))
    && CanStep(s, path[|path| - 1])
  }

  function LeftSet(nodes: seq<Node>, n: nat): set<nat> {
    set m: nat | m < |nodes| && Left(nodes, m, n)
  }

  lemma FewerLeft(nodes: seq<Node>, a: nat, b: nat)
    requires Left(nodes, a, b)
    ensures |LeftSet(nodes, a)| < |LeftSet(nodes, b)|
  {
    var sa, sb := LeftSet(nodes, a), LeftSet(nodes, b);
    assert sa <= sb && a in sb && a !in sa;
    Smaller(sa, sb);
  }

  lemma Smaller(a: set<nat>, b: set<nat>)
    requires a < b
    ensures |a| < |b|
  {
    assert b == a + (b - a);
    assert b - a != {};
  }

  lemma OneFurther(s: State, t: nat, path: seq<nat>)
    requires LeadsOn(s, path) && Delays(s, t, path[0])
    ensures LeadsOn(s, [t] + path)
  {
    hide Delays, CanStep;
    var q := [t] + path;
    forall i | 0 < i < |q|
      ensures Delays(s, q[i - 1], q[i])
    {
      if i > 1 { assert q[i] == path[i - 1] && q[i - 1] == path[i - 2]; }
    }
  }

  /** Each lock waited for is further to the left, so the threads that wait for each other end somewhere. */
  lemma {:induction false} HoldersLeadOn(s: State, t: nat) returns (path: seq<nat>)
    requires Inv(s) && AllInLine(s) && t in s.threads && AwaitsLock(s.shared.nodes, s.threads[t])
    ensures LeadsOn(s, path) && path[0] == t
    decreases |LeftSet(s.shared.nodes, Wanted(s.threads[t]).id)|
  {
    hide CanStep;
    var nodes, n := s.shared.nodes, Wanted(s.threads[t]).id;
    var u := nodes[n].owner.tid;
    assert OwnedBy(nodes, n, u) && Holds(s, u, n);
    assert InLine(nodes, s.threads[u]);
    OnlyTwoWaits(s, u);
    var rest := [u];
    if !CanStep(s, u) {
      WantsLeft(s, u, n);
      FewerLeft(nodes, Wanted(s.threads[u]).id, n);
      rest := HoldersLeadOn(s, u);
    }
    OneFurther(s, t, rest);
    path := [t] + rest;
  }

  lemma LinkersLeadOn(s: State, t: nat) returns (path: seq<nat>)
    requires Inv(s) && AllInGoodHands(s) && t in s.threads && AwaitsLinking(s.shared.nodes, s.threads[t].pc)
    ensures LeadsOn(s, path) && path[0] == t
  {
    hide CanStep, NodesOk, LayersOk, NoneLost, LocksOk, FreshApart, HeadsOk;
    var n := s.threads[t].pc.node;
    assert ThreadOk(s.shared, s.threads[t]);
    assert InGoodHands(s, n);
    var u: nat :| u in s.threads && Links(s.threads[u].pc, n);
    LinkStep(s, u);
    path := [t, u];
  }

  /**
   In every state of every run, every thread can go on, or is delayed by one that can, or by one that is delayed by one
   that can, and so on.
   */
  lemma NobodyIsStuck(states: seq<State>, moves: seq<Move>, i: nat, t: nat) returns (path: seq<nat>)
    requires IsRun(states, moves) && i < |states| && t in states[i].threads
    ensures LeadsOn(states[i], path) && path[0] == t
  {
    hide Inv, AllInLine, AllInGoodHands, Init, Next, CanStep, AwaitsLinking, AwaitsLock;
    RunKeeps(states, moves, i);
    RunInLine(states, moves, i);
    RunInGoodHands(states, moves, i);
    OnlyTwoWaits(states[i], t);
    if CanStep(states[i], t) {
      path := [t];
    } else if AwaitsLock(states[i].shared.nodes, states[i].threads[t]) {
      path := HoldersLeadOn(states[i], t);
    } else {
      path := LinkersLeadOn(states[i], t);
    }
  }
}
