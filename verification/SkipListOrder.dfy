/** Locks are taken from right to left, so threads never wait for each other in a circle. */
module SkipListOrder {
  import opened SkipListState
  import opened SkipListSteps
  import opened SkipListProofs
  import opened SkipListRuns

  /** Node a stands strictly left of node b. */
  predicate Left(nodes: seq<Node>, a: nat, b: nat) {
    a < |nodes| && b < |nodes| && !nodes[b].isHead && (nodes[a].isHead || nodes[a].key < nodes[b].key)
  }

  predicate LeftOrSame(nodes: seq<Node>, a: nat, b: nat) {
    a == b || Left(nodes, a, b)
  }

  /** From layer lo to layer hi - 1 the recorded predecessors never move right. */
  ghost predicate Descending(nodes: seq<Node>, preds: seq<nat>, lo: nat, hi: nat) {
    hi <= |preds| && forall l: nat, m: nat | lo <= l < m < hi :: LeftOrSame(nodes, preds[m], preds[l])
  }

  /** What a thread holds before it has all its locks: its marked victim, and predecessors of the layers below hi. */
  predicate HoldsOnly(held: set<nat>, op: Op, preds: seq<nat>, hi: nat) {
    hi <= |preds| && forall n | n in held :: n in Kept(op) || n in preds[..hi]
  }

  ghost predicate InLine(nodes: seq<Node>, th: Thread) {
    match th.pc
    case Idle(_) => th.held == {}
    case Begin(op, _, _) => th.held <= Kept(op)
    case Search(op, _, _, layer, pred, _, _, preds, _) =>
      && th.held <= Kept(op) && layer < |preds| && Descending(nodes, preds, layer + 1, |preds|)
      && (forall m: nat | layer < m < |preds| :: LeftOrSame(nodes, preds[m], pred))
    case Chosen(op, _, _, _, preds, _) => th.held <= Kept(op) && Descending(nodes, preds, 0, |preds|)
    case Await(_) => th.held == {}
    case Claim(_, _, preds, _) => th.held == {} && Descending(nodes, preds, 0, |preds|)
    case Claimed(_, victim, preds, _) => th.held <= {victim} && Descending(nodes, preds, 0, |preds|)
    case Lock(op, _, _, layer, preds, _) =>
      HoldsOnly(th.held, op, preds, layer) && layer < |preds| && Descending(nodes, preds, 0, |preds|)
    case Check(op, _, _, layer, preds, _) =>
      layer < |preds| && HoldsOnly(th.held, op, preds, layer + 1) && Descending(nodes, preds, 0, |preds|)
    case Grow(_, _) => th.held == {}
    case _ => true
  }

  ghost predicate AllInLine(s: State) {
    forall t | t in s.threads :: InLine(s.shared.nodes, s.threads[t])
  }

  /** Nodes keep their keys, and heads stay heads. */
  ghost predicate KeysKept(nodes: seq<Node>, nodes': seq<Node>) {
    && |nodes| <= |nodes'|
    && forall n | 0 <= n < |nodes| :: nodes'[n].key == nodes[n].key && nodes'[n].isHead == nodes[n].isHead
  }

  lemma LeftTransitive(nodes: seq<Node>, a: nat, b: nat, c: nat)
    requires LeftOrSame(nodes, a, b) && Left(nodes, b, c)
    ensures Left(nodes, a, c)
  {
  }

  lemma InLineStays(nodes: seq<Node>, nodes': seq<Node>, th: Thread)
    requires KeysKept(nodes, nodes') && InLine(nodes, th)
    ensures InLine(nodes', th)
  {
    hide Left;
    forall a: nat, b: nat | LeftOrSame(nodes, a, b)
      ensures LeftOrSame(nodes', a, b)
    {
      if a != b { LeftStays(nodes, nodes', a, b); }
    }
  }

  lemma LeftStays(nodes: seq<Node>, nodes': seq<Node>, a: nat, b: nat)
    requires KeysKept(nodes, nodes') && Left(nodes, a, b)
    ensures Left(nodes', a, b)
  {
  }

  lemma StepInLine(s: State, t: nat, s': State)
    requires AllInLine(s) && t in s.threads && t in s'.threads && s'.threads == s.threads[t := s'.threads[t]]
    requires KeysKept(s.shared.nodes, s'.shared.nodes) && InLine(s.shared.nodes, s'.threads[t])
    ensures AllInLine(s')
  {
    hide KeysKept, InLine;
    forall u | u in s'.threads
      ensures InLine(s'.shared.nodes, s'.threads[u])
    {
      InLineStays(s.shared.nodes, s'.shared.nodes, if u == t then s'.threads[t] else s.threads[u]);
    }
  }

  // ----- steps

  lemma NextThreads(s: State, t: nat, a: Action, s': State)
    requires Next(s, t, a, s')
    ensures t in s.threads && t in s'.threads && s'.threads == s.threads[t := s'.threads[t]]
  {
    hide PredValid, MaxLayer, Kept, OkToDelete, InsertAfter, Without, Nils, FreeAll, SetSkip, SetOwner, CopyHead, NewHeadOrNode;
  }

  lemma NextKeys(s: State, t: nat, a: Action, s': State)
    requires Next(s, t, a, s')
    ensures KeysKept(s.shared.nodes, s'.shared.nodes)
  {
    hide PredValid, MaxLayer, Kept, OkToDelete, InsertAfter, Without, Nils;
  }

  lemma NextKeysKept(s: State, t: nat, a: Action, s': State)
    requires Next(s, t, a, s')
    ensures t in s.threads && t in s'.threads && s'.threads == s.threads[t := s'.threads[t]]
    ensures KeysKept(s.shared.nodes, s'.shared.nodes)
  {
    hide Next, KeysKept;
    NextThreads(s, t, a, s');
    NextKeys(s, t, a, s');
  }

  lemma ScanInLine(s: State, t: nat, s': State)
    requires Inv(s) && AllInLine(s) && Scan(s, t, s')
    ensures InLine(s.shared.nodes, s'.threads[t])
  {
    hide LayersOk, NoneLost, LocksOk, FreshApart, HeadsOk;
    var pc, nodes := s.threads[t].pc, s.shared.nodes;
    assert InLine(nodes, s.threads[t]) && ThreadOk(s.shared, s.threads[t]);
    var node := nodes[pc.pred].skip[pc.layer];
    assert NodeOk(nodes, pc.pred) && LinkOk(nodes, pc.pred, pc.layer);
    if node.To? && nodes[node.id].key < pc.data {
      forall m: nat | pc.layer < m < |pc.preds|
        ensures LeftOrSame(nodes, pc.preds[m], node.id)
      {
        LeftTransitive(nodes, pc.preds[m], pc.pred, node.id);
      }
    }
  }

  lemma TakePredInLine(s: State, t: nat, s': State)
    requires AllInLine(s) && TakePred(s, t, s')
    ensures InLine(s.shared.nodes, s'.threads[t])
  {
    var pc := s.threads[t].pc;
    assert InLine(s.shared.nodes, s.threads[t]);
    assert pc.preds[..pc.layer + 1] == pc.preds[..pc.layer] + [pc.preds[pc.layer]];
  }

  lemma SearchInLine(s: State, t: nat, a: Action, s': State)
    requires AllInLine(s) && Next(s, t, a, s') && t in s'.threads && ThreadOk(s'.shared, s'.threads[t])
    requires a.ToStart? || a.ToEnter? || a.ToAddFound? || a.ToAddReturn? || a.ToAddMissing? || a.ToRemoveFirst? || a.ToRemoveAgain? || a.ToGrowStart?
    ensures InLine(s.shared.nodes, s'.threads[t])
  {
    hide KeysFit, AllValidated, Neighbours, OpOk;
    assert InLine(s.shared.nodes, s.threads[t]);
  }

  lemma LockInLine(s: State, t: nat, a: Action, s': State)
    requires AllInLine(s) && Next(s, t, a, s') && t in s'.threads && ThreadOk(s'.shared, s'.threads[t])
    requires a.ToTakeVictim? || a.ToMarkVictim? || a.ToTestPred? || a.ToRelease?
    ensures InLine(s.shared.nodes, s'.threads[t])
  {
    hide KeysFit, AllValidated, Neighbours, OpOk;
    assert InLine(s.shared.nodes, s.threads[t]);
  }

  lemma StoreInLine(s: State, t: nat, a: Action, s': State)
    requires Next(s, t, a, s') && t in s'.threads
    requires a.ToStoreOwn? || a.ToStorePred? || a.ToSetFull? || a.ToStoreUnlink? || a.ToGrowLock? || a.ToGrowCopy? || a.ToGrowSwap?
             || a.ToGrowMark?
    ensures InLine(s.shared.nodes, s'.threads[t])
  {
  }

  lemma StillOk(s: State, t: nat)
    requires Inv(s) && t in s.threads
    ensures ThreadOk(s.shared, s.threads[t])
  {
  }

  lemma NextInLine(s: State, t: nat, a: Action, s': State)
    requires Inv(s) && AllInLine(s) && Next(s, t, a, s')
    ensures AllInLine(s')
  {
    hide Inv, AllInLine, KeysKept, InLine, ThreadOk;
    NextKeysKept(s, t, a, s');
    NextKeeps(s, t, a, s');
    StillOk(s', t);
    if a.ToScan? {
      ScanInLine(s, t, s');
    } else if a.ToTakePred? {
      TakePredInLine(s, t, s');
    } else if a.ToTakeVictim? || a.ToMarkVictim? || a.ToTestPred? || a.ToRelease? {
      LockInLine(s, t, a, s');
    } else if a.ToStart? || a.ToEnter? || a.ToAddFound? || a.ToAddReturn? || a.ToAddMissing? || a.ToRemoveFirst? || a.ToRemoveAgain? || a.ToGrowStart? {
      SearchInLine(s, t, a, s');
    } else {
      StoreInLine(s, t, a, s');
    }
    StepInLine(s, t, s');
  }

  lemma {:induction false} RunInLine(states: seq<State>, moves: seq<Move>, i: nat)
    requires IsRun(states, moves) && i < |states|
    ensures AllInLine(states[i])
  {
    hide Inv, Next, AllInLine;
    if i == 0 {
      StartInLine(states[0]);
    } else {
      RunInLine(states, moves, i - 1);
      RunKeeps(states, moves, i - 1);
      NextInLine(states[i - 1], moves[i - 1].thread, moves[i - 1].action, states[i]);
    }
  }

  lemma StartInLine(s: State)
    requires Init(s)
    ensures AllInLine(s)
  {
  }

  // ----- who waits for whom

  /** The node whose lock a thread needs next. */
  function Wanted(th: Thread): Link {
    match th.pc
    case Claim(_, victim, _, _) => To(victim)
    case Lock(_, _, _, layer, preds, _) =>
      if layer < |preds| && !(layer > 0 && preds[layer - 1] == preds[layer]) then To(preds[layer]) else Nil
    case Grow(oldHead, _) => To(oldHead)
    case _ => Nil
  }

  /** The lock a thread needs is left of all that it holds. */
  lemma WantsLeft(s: State, t: nat, n: nat)
    requires Inv(s) && AllInLine(s) && t in s.threads && Wanted(s.threads[t]).To? && n in s.threads[t].held
    ensures Left(s.shared.nodes, Wanted(s.threads[t]).id, n)
  {
    hide NodesOk, LayersOk, NoneLost, LocksOk, FreshApart, HeadsOk, AllValidated;
    var th, nodes := s.threads[t], s.shared.nodes;
    assert InLine(nodes, th) && ThreadOk(s.shared, th);
    var pc := th.pc;
    var want := pc.preds[pc.layer];
    assert LeftOf(nodes, want, pc.layer, pc.data);
    if n !in Kept(pc.op) {
      var l: nat :| l < pc.layer && pc.preds[l] == n;
      var below := pc.preds[pc.layer - 1];
      assert LeftOrSame(nodes, want, below);
      if l < pc.layer - 1 { assert LeftOrSame(nodes, below, n); }
    }
  }

  /** t waits for a lock that u holds. */
  predicate WaitsFor(s: State, t: nat, u: nat) {
    t in s.threads && u in s.threads && Wanted(s.threads[t]).To? && Wanted(s.threads[t]).id in s.threads[u].held
  }

  ghost predicate InCircle(s: State, ts: seq<nat>) {
    && |ts| > 0 && WaitsFor(s, ts[|ts| - 1], ts[0])
    && forall k: nat | k < |ts| - 1 :: WaitsFor(s, ts[k], ts[k + 1])
  }

  lemma {:induction false} FurtherLeft(s: State, ts: seq<nat>, k: nat)
    requires Inv(s) && AllInLine(s) && k < |ts| && ts[0] in s.threads && Wanted(s.threads[ts[0]]).To?
    requires forall i: nat | i < |ts| - 1 :: WaitsFor(s, ts[i], ts[i + 1])
    requires ts[k] in s.threads && Wanted(s.threads[ts[k]]).To?
    ensures LeftOrSame(s.shared.nodes, Wanted(s.threads[ts[k]]).id, Wanted(s.threads[ts[0]]).id)
  {
    hide Inv, AllInLine, Wanted;
    if k > 0 {
      assert WaitsFor(s, ts[k - 1], ts[k]);
      FurtherLeft(s, ts, k - 1);
      WantsLeft(s, ts[k], Wanted(s.threads[ts[k - 1]]).id);
    }
  }

  /** No circle of threads, of whatever length, waits for each other's locks. */
  lemma NoDeadlock(states: seq<State>, moves: seq<Move>, i: nat, ts: seq<nat>)
    requires IsRun(states, moves) && i < |states|
    ensures !InCircle(states[i], ts)
  {
    hide Inv, AllInLine, Next, Init, Wanted;
    RunKeeps(states, moves, i);
    RunInLine(states, moves, i);
    var s := states[i];
    if InCircle(s, ts) {
      var last := ts[|ts| - 1];
      if |ts| > 1 { assert WaitsFor(s, ts[0], ts[1]); }
      FurtherLeft(s, ts, |ts| - 1);
      WantsLeft(s, ts[0], Wanted(s.threads[last]).id);
    }
  }
}
