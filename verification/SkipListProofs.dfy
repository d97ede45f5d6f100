/** Every step of every thread keeps the invariant of the skip list. */
module SkipListProofs {
  import opened SkipListState
  import opened SkipListSteps
  import opened SkipListStability
  import opened SkipListChains

  // ----- steps that only change what one thread remembers

  lemma LocalStep(s: State, t: nat, s': State, pc: Pc)
    requires Inv(s) && t in s.threads && s' == WithPc(s, t, pc)
    requires ThreadOk(s.shared, s.threads[t].(pc := pc))
    requires Fresh(pc) == Nil || Fresh(pc) == Fresh(s.threads[t].pc)
    requires !s.threads[t].pc.GrowSwapped?
    ensures Inv(s')
  {
    hide NodesOk, LayersOk, NoneLost, ThreadOk;
    SameLocks(s, t, s');
    forall u | u in s'.threads
      ensures ThreadOk(s'.shared, s'.threads[u])
    {
    }
  }

  lemma SameLocks(s: State, t: nat, s': State)
    requires LocksOk(s) && t in s.threads && t in s'.threads && s'.threads == s.threads[t := s'.threads[t]]
    requires s'.threads[t].held == s.threads[t].held
    requires |s'.shared.nodes| >= |s.shared.nodes|
    requires forall n | 0 <= n < |s.shared.nodes| :: s'.shared.nodes[n].owner == s.shared.nodes[n].owner
    requires forall n | |s.shared.nodes| <= n < |s'.shared.nodes| :: s'.shared.nodes[n].owner == Free
    ensures LocksOk(s')
  {
    forall u: nat, n: nat
      ensures Holds(s', u, n) <==> OwnedBy(s'.shared.nodes, n, u)
    {
      assert Holds(s, u, n) <==> OwnedBy(s.shared.nodes, n, u);
    }
  }

  lemma StartKeeps(s: State, t: nat, s': State, op: Op, data: int)
    requires Inv(s) && Start(s, t, s', op, data)
    ensures Inv(s')
  {
    HasHeight(s.shared, s.shared.head);
    LocalStep(s, t, s', s'.threads[t].pc);
  }

  lemma HeadLeft(sh: Shared, data: int, top: nat)
    requires LayersOk(sh) && top < |sh.layers|
    ensures LeftOf(sh.nodes, sh.head, top, data)
  {
  }

  lemma EnterKeeps(s: State, t: nat, s': State)
    requires Inv(s) && Enter(s, t, s')
    ensures Inv(s')
  {
    hide OpOk, NodesOk, LayersOk, NoneLost, LocksOk, FreshApart, HeadsOk;
    var pc := s.threads[t].pc;
    assert ThreadOk(s.shared, s.threads[t]);
    HeadLeft(s.shared, pc.data, pc.top);
    LocalStep(s, t, s', s'.threads[t].pc);
  }

  /** What reading one link tells. */
  lemma ScanRead(nodes: seq<Node>, pred: nat, layer: nat, data: int)
    requires NodesOk(nodes) && LeftOf(nodes, pred, layer, data)
    ensures layer < |nodes[pred].skip|
    ensures
      var node := nodes[pred].skip[layer];
      node.To? ==>
        && node.id < |nodes|
        && (nodes[node.id].key < data ==> LeftOf(nodes, node.id, layer, data))
        && (nodes[node.id].key == data ==> RightOf(nodes, node, layer, data, true))
        && (nodes[node.id].key > data ==> RightOf(nodes, node, layer, data, false))
  {
    assert NodeOk(nodes, pred);
    assert LinkOk(nodes, pred, layer);
  }

  lemma Recorded(nodes: seq<Node>, data: int, layer: nat, foundLayer: int, preds: seq<nat>, succs: seq<Link>, pred: nat, succ: Link)
    requires layer < |preds| && Neighbours(nodes, data, layer + 1, foundLayer, preds, succs)
    requires LeftOf(nodes, pred, layer, data) && RightOf(nodes, succ, layer, data, layer <= foundLayer)
    requires layer <= foundLayer ==> succ.To?
    ensures Neighbours(nodes, data, layer, foundLayer, preds[layer := pred], succs[layer := succ])
  {
  }

  lemma NotFoundBefore(nodes: seq<Node>, data: int, layer: nat, preds: seq<nat>, succs: seq<Link>)
    requires Neighbours(nodes, data, layer + 1, -1, preds, succs)
    ensures Neighbours(nodes, data, layer + 1, layer, preds, succs)
  {
  }

  lemma LowerLayer(nodes: seq<Node>, node: nat, l: nat, m: nat, data: int)
    requires l <= m && RightOf(nodes, To(node), m, data, true)
    ensures RightOf(nodes, To(node), l, data, true)
  {
  }

  lemma StillLeft(nodes: seq<Node>, pred: nat, layer: nat, data: int)
    requires layer > 0 && LeftOf(nodes, pred, layer, data)
    ensures LeftOf(nodes, pred, layer - 1, data)
  {
  }

  lemma ScanKeeps(s: State, t: nat, s': State)
    requires Inv(s) && Scan(s, t, s')
    ensures Inv(s')
  {
    hide OpOk, NodesOk, LayersOk, NoneLost, LocksOk, FreshApart, HeadsOk, Neighbours, LeftOf, RightOf;
    var pc, nodes := s.threads[t].pc, s.shared.nodes;
    assert ThreadOk(s.shared, s.threads[t]);
    ScanRead(nodes, pc.pred, pc.layer, pc.data);
    var node := nodes[pc.pred].skip[pc.layer];
    if !(node.To? && nodes[node.id].key < pc.data) {
      var hit := pc.foundLayer == -1 && node.To? && nodes[node.id].key == pc.data;
      var foundLayer := if hit then pc.layer else pc.foundLayer;
      var foundNode := if hit then node.id else pc.foundNode;
      var succ := if foundLayer >= 0 then To(foundNode) else node;
      if hit { NotFoundBefore(nodes, pc.data, pc.layer, pc.preds, pc.succs); }
      if foundLayer >= 0 {
        LowerLayer(nodes, foundNode, pc.layer, foundLayer, pc.data);
      } else if node == Nil {
        NilRight(nodes, pc.layer, pc.data);
      }
      Recorded(nodes, pc.data, pc.layer, foundLayer, pc.preds, pc.succs, pc.pred, succ);
      if pc.layer > 0 { StillLeft(nodes, pc.pred, pc.layer, pc.data); }
    }
    LocalStep(s, t, s', s'.threads[t].pc);
  }

  lemma NilRight(nodes: seq<Node>, layer: nat, data: int)
    ensures RightOf(nodes, Nil, layer, data, false)
  {
  }

  lemma AddFoundKeeps(s: State, t: nat, s': State)
    requires Inv(s) && AddFound(s, t, s')
    ensures Inv(s')
  {
    hide NoneLost, LocksOk, FreshApart, HeadsOk;
    var pc := s.threads[t].pc;
    assert ThreadOk(s.shared, s.threads[t]);
    assert RightOf(s.shared.nodes, pc.succs[pc.foundLayer], pc.foundLayer, pc.data, true);
    LocalStep(s, t, s', s'.threads[t].pc);
  }

  lemma AddReturnKeeps(s: State, t: nat, s': State)
    requires Inv(s) && AddReturn(s, t, s')
    ensures Inv(s')
  {
    LocalStep(s, t, s', s'.threads[t].pc);
  }

  lemma Searched(nodes: seq<Node>, data: int, foundLayer: int, preds: seq<nat>, succs: seq<Link>)
    requires Neighbours(nodes, data, 0, foundLayer, preds, succs)
    ensures SearchedFor(nodes, data, preds, succs)
    ensures foundLayer < 0 ==> Neighbours(nodes, data, 0, -1, preds, succs)
  {
  }

  lemma NoneValidated(nodes: seq<Node>, held: set<nat>, preds: seq<nat>, succs: seq<Link>)
    requires |preds| == |succs|
    ensures AllValidated(nodes, held, 0, 0, preds, succs)
  {
  }

  lemma AddMissingKeeps(s: State, t: nat, s': State, height: nat)
    requires Inv(s) && AddMissing(s, t, s', height)
    ensures Inv(s')
  {
    hide NodesOk, LayersOk, NoneLost, LocksOk, FreshApart, HeadsOk, Neighbours, SearchedFor, AllValidated;
    var pc := s.threads[t].pc;
    assert ThreadOk(s.shared, s.threads[t]);
    Searched(s.shared.nodes, pc.data, pc.foundLayer, pc.preds, pc.succs);
    SameLength(s.shared.nodes, pc.data, pc.foundLayer, pc.preds, pc.succs);
    NoneValidated(s.shared.nodes, s.threads[t].held, pc.preds, pc.succs);
    LocalStep(s, t, s', s'.threads[t].pc);
  }

  lemma SameLength(nodes: seq<Node>, data: int, foundLayer: int, preds: seq<nat>, succs: seq<Link>)
    requires Neighbours(nodes, data, 0, foundLayer, preds, succs)
    ensures |preds| == |succs|
  {
  }

  lemma RemoveFirstKeeps(s: State, t: nat, s': State)
    requires Inv(s) && RemoveFirst(s, t, s')
    ensures Inv(s')
  {
    hide NodesOk, LayersOk, NoneLost, LocksOk, FreshApart, HeadsOk, SearchedFor, AllValidated, OpOk;
    var pc := s.threads[t].pc;
    assert ThreadOk(s.shared, s.threads[t]);
    Searched(s.shared.nodes, pc.data, pc.foundLayer, pc.preds, pc.succs);
    if s'.threads[t].pc.Claim? {
      assert RightOf(s.shared.nodes, pc.succs[pc.foundLayer], pc.foundLayer, pc.data, true);
    }
    LocalStep(s, t, s', s'.threads[t].pc);
  }

  lemma RemoveAgainKeeps(s: State, t: nat, s': State)
    requires Inv(s) && RemoveAgain(s, t, s')
    ensures Inv(s')
  {
    hide NodesOk, LayersOk, NoneLost, LocksOk, FreshApart, HeadsOk, Neighbours, SearchedFor, AllValidated, VictimOk;
    var pc := s.threads[t].pc;
    assert ThreadOk(s.shared, s.threads[t]);
    Searched(s.shared.nodes, pc.data, pc.foundLayer, pc.preds, pc.succs);
    SameLength(s.shared.nodes, pc.data, pc.foundLayer, pc.preds, pc.succs);
    NoneValidated(s.shared.nodes, s.threads[t].held, pc.preds, pc.succs);
    HasHeight(s.shared, pc.op.victim);
    LocalStep(s, t, s', s'.threads[t].pc);
  }

  lemma FullLinked(sh: Shared, n: nat)
    requires NodesOk(sh.nodes) && n < |sh.nodes| && sh.nodes[n].full
    ensures sh.nodes[n].linked == |sh.nodes[n].skip| > 0
  {
    assert NodeOk(sh.nodes, n);
  }

  lemma HasHeight(sh: Shared, n: nat)
    requires NodesOk(sh.nodes) && n < |sh.nodes|
    ensures |sh.nodes[n].skip| > 0
  {
    assert NodeOk(sh.nodes, n);
  }

  // ----- taking and freeing locks

  ghost predicate OwnersOnly(nodes: seq<Node>, nodes': seq<Node>) {
    |nodes'| == |nodes| && forall n | 0 <= n < |nodes| ::
      SameButOwner(nodes[n], nodes'[n]) && (nodes'[n].owner.By? ==> nodes[n].owner.By? || nodes[n].linked > 0)
  }

  lemma OwnersKeep(sh: Shared, sh': Shared)
    requires sh' == sh.(nodes := sh'.nodes) && OwnersOnly(sh.nodes, sh'.nodes)
    requires NodesOk(sh.nodes) && LayersOk(sh) && NoneLost(sh)
    ensures NodesOk(sh'.nodes) && LayersOk(sh') && NoneLost(sh')
  {
    var nodes, nodes' := sh.nodes, sh'.nodes;
    forall n | 0 <= n < |nodes'|
      ensures NodeOk(nodes', n) && Present(sh', n)
    {
      assert SameButOwner(nodes[n], nodes'[n]);
      assert NodeOk(nodes, n) && Present(sh, n);
      forall l | 0 <= l < |nodes[n].skip|
        ensures LinkOk(nodes', n, l)
      {
        assert LinkOk(nodes, n, l);
        if nodes[n].skip[l].To? { assert SameButOwner(nodes[nodes[n].skip[l].id], nodes'[nodes[n].skip[l].id]); }
      }
    }
    OwnersLayers(sh, sh');
  }

  lemma OwnersLayers(sh: Shared, sh': Shared)
    requires sh' == sh.(nodes := sh'.nodes) && OwnersOnly(sh.nodes, sh'.nodes) && LayersOk(sh)
    ensures LayersOk(sh')
  {
  }

  lemma OwnersRespect(sh: Shared, sh': Shared, held: set<nat>, mine: Link)
    requires sh' == sh.(nodes := sh'.nodes) && OwnersOnly(sh.nodes, sh'.nodes)
    ensures Respects(sh, sh', held, mine) && KeepsToItself(sh, sh', held, mine)
  {
    forall n | 0 <= n < |sh.nodes|
      ensures SameNode(sh.nodes[n], sh'.nodes[n]) && LockedSame(sh.nodes[n], sh'.nodes[n])
      ensures FreshSame(sh.nodes[n], sh'.nodes[n])
    {
      assert SameButOwner(sh.nodes[n], sh'.nodes[n]);
    }
  }

  /** A published unmarked head stays either the head or locked by the thread that will mark it. */
  lemma HeadsAfterOwners(s: State, t: nat, s': State)
    requires HeadsOk(s) && LocksOk(s') && t in s.threads && t in s'.threads && s'.threads == s.threads[t := s'.threads[t]]
    requires s'.shared == s.shared.(nodes := s'.shared.nodes) && OwnersOnly(s.shared.nodes, s'.shared.nodes)
    requires !s.threads[t].pc.GrowSwapped?
    requires forall n: nat | n < |s.shared.nodes| && s.shared.nodes[n].owner.By? && s.shared.nodes[n].owner.tid != t ::
               s'.shared.nodes[n].owner == s.shared.nodes[n].owner
    ensures HeadsOk(s')
  {
    forall n | 0 <= n < |s'.shared.nodes| && s'.shared.nodes[n].isHead && s'.shared.nodes[n].linked > 0
               && !s'.shared.nodes[n].marked && n != s'.shared.head
      ensures s'.shared.nodes[n].owner.By? && s'.shared.nodes[n].owner.tid in s'.threads
      ensures s'.threads[s'.shared.nodes[n].owner.tid].pc == GrowSwapped(n)
    {
      assert SameButOwner(s.shared.nodes[n], s'.shared.nodes[n]);
      assert s.threads[s.shared.nodes[n].owner.tid].pc == GrowSwapped(n);
    }
  }

  lemma FreshStays(s: State, t: nat, s': State)
    requires FreshApart(s) && t in s.threads && t in s'.threads && s'.threads == s.threads[t := s'.threads[t]]
    requires Fresh(s'.threads[t].pc) == Nil || Fresh(s'.threads[t].pc) == Fresh(s.threads[t].pc)
    ensures FreshApart(s')
  {
  }

  lemma TakenLocks(s: State, t: nat, n: nat, pc: Pc)
    requires LocksOk(s) && t in s.threads && CanTake(s, n) && s.shared.nodes[n].linked > 0
    ensures LocksOk(Taking(s, t, n, pc)) && OwnersOnly(s.shared.nodes, Taking(s, t, n, pc).shared.nodes)
  {
    var s' := Taking(s, t, n, pc);
    forall u: nat, m: nat
      ensures Holds(s', u, m) <==> OwnedBy(s'.shared.nodes, m, u)
    {
      assert Holds(s, u, m) <==> OwnedBy(s.shared.nodes, m, u);
    }
  }

  lemma TakeStep(s: State, t: nat, s': State, n: nat, pc: Pc)
    requires Inv(s) && t in s.threads && CanTake(s, n) && s' == Taking(s, t, n, pc) && s.shared.nodes[n].linked > 0
    requires ThreadOk(s.shared, Thread(pc, s.threads[t].held + {n}))
    requires Fresh(pc) == Nil || Fresh(pc) == Fresh(s.threads[t].pc)
    requires !s.threads[t].pc.GrowSwapped?
    ensures Inv(s')
  {
    hide NodesOk, LayersOk, NoneLost, ThreadOk, LocksOk, FreshApart, HeadsOk, KeepsToItself, Respects, OwnersOnly;
    TakenLocks(s, t, n, pc);
    OwnersKeep(s.shared, s'.shared);
    OwnersRespect(s.shared, s'.shared, s.threads[t].held, Fresh(s.threads[t].pc));
    OwnersRespect(s.shared, s'.shared, s.threads[t].held + {n}, Fresh(pc));
    Stable(s.shared, s'.shared, s'.threads[t]);
    HeadsAfterOwners(s, t, s');
    FreshStays(s, t, s');
    StepKeeps(s, t, s', s'.threads[t]);
  }

  lemma TakeVictimKeeps(s: State, t: nat, s': State)
    requires Inv(s) && TakeVictim(s, t, s')
    ensures Inv(s')
  {
    hide NodesOk, LayersOk, NoneLost, LocksOk, FreshApart, HeadsOk, SearchedFor;
    var pc := s.threads[t].pc;
    assert ThreadOk(s.shared, s.threads[t]);
    FullLinked(s.shared, pc.victim);
    TakeStep(s, t, s', pc.victim, s'.threads[t].pc);
  }

  lemma MoreHeld(sh: Shared, held: set<nat>, n: nat, op: Op, data: int, top: nat, lo: nat, hi: nat, preds: seq<nat>, succs: seq<Link>)
    requires OpOk(sh, held, op, data, top) && AllValidated(sh.nodes, held, lo, hi, preds, succs)
    ensures OpOk(sh, held + {n}, op, data, top) && AllValidated(sh.nodes, held + {n}, lo, hi, preds, succs)
  {
  }

  lemma TakePredKeeps(s: State, t: nat, s': State)
    requires Inv(s) && TakePred(s, t, s')
    ensures Inv(s')
  {
    hide NodesOk, LayersOk, NoneLost, LocksOk, FreshApart, HeadsOk, OpOk, KeysFit, AllValidated;
    var pc, held := s.threads[t].pc, s.threads[t].held;
    assert ThreadOk(s.shared, s.threads[t]);
    if pc.layer > 0 && pc.preds[pc.layer - 1] == pc.preds[pc.layer] {
      PredHeld(s.shared.nodes, held, pc.layer, pc.preds, pc.succs);
      LocalStep(s, t, s', s'.threads[t].pc);
    } else {
      KeysLinked(s.shared.nodes, pc.op, pc.data, pc.preds, pc.succs, pc.layer);
      MoreHeld(s.shared, held, pc.preds[pc.layer], pc.op, pc.data, pc.height - 1, 0, pc.layer, pc.preds, pc.succs);
      TakeStep(s, t, s', pc.preds[pc.layer], s'.threads[t].pc);
    }
  }

  lemma PredHeld(nodes: seq<Node>, held: set<nat>, layer: nat, preds: seq<nat>, succs: seq<Link>)
    requires 0 < layer && AllValidated(nodes, held, 0, layer, preds, succs)
    ensures preds[layer - 1] in held
  {
  }

  lemma GrowLockKeeps(s: State, t: nat, s': State)
    requires Inv(s) && GrowLock(s, t, s')
    ensures Inv(s')
  {
    hide NodesOk, LayersOk, NoneLost, LocksOk, FreshApart, HeadsOk;
    assert ThreadOk(s.shared, s.threads[t]);
    TakeStep(s, t, s', s.threads[t].pc.oldHead, s'.threads[t].pc);
  }

  lemma FreedLocks(s: State, t: nat, kept: set<nat>, pc: Pc)
    requires LocksOk(s) && t in s.threads
    ensures
      var held := s.threads[t].held;
      var s' := State(s.shared.(nodes := FreeAll(s.shared.nodes, held - kept)), s.threads[t := Thread(pc, held * kept)]);
      && LocksOk(s') && OwnersOnly(s.shared.nodes, s'.shared.nodes)
      && (forall n: nat | n < |s.shared.nodes| && s.shared.nodes[n].owner.By? && s.shared.nodes[n].owner.tid != t ::
            s'.shared.nodes[n].owner == s.shared.nodes[n].owner)
  {
    var held := s.threads[t].held;
    var s' := State(s.shared.(nodes := FreeAll(s.shared.nodes, held - kept)), s.threads[t := Thread(pc, held * kept)]);
    forall u: nat, m: nat
      ensures Holds(s', u, m) <==> OwnedBy(s'.shared.nodes, m, u)
    {
      assert Holds(s, u, m) <==> OwnedBy(s.shared.nodes, m, u);
      assert Holds(s, t, m) <==> OwnedBy(s.shared.nodes, m, t);
    }
    forall n: nat | n < |s.shared.nodes| && s.shared.nodes[n].owner.By? && s.shared.nodes[n].owner.tid != t
      ensures s'.shared.nodes[n].owner == s.shared.nodes[n].owner
    {
      assert Holds(s, t, n) <==> OwnedBy(s.shared.nodes, n, t);
    }
  }

  lemma FreeStep(s: State, t: nat, s': State, kept: set<nat>, pc: Pc)
    requires Inv(s) && t in s.threads
    requires s' == State(s.shared.(nodes := FreeAll(s.shared.nodes, s.threads[t].held - kept)),
                         s.threads[t := Thread(pc, s.threads[t].held * kept)])
    requires ThreadOk(s.shared, Thread(pc, s.threads[t].held * kept)) && Fresh(pc) == Nil
    requires !s.threads[t].pc.GrowSwapped?
    ensures Inv(s')
  {
    hide NodesOk, LayersOk, NoneLost, ThreadOk, LocksOk, FreshApart, HeadsOk, KeepsToItself, Respects, OwnersOnly;
    FreedLocks(s, t, kept, pc);
    OwnersKeep(s.shared, s'.shared);
    OwnersRespect(s.shared, s'.shared, s.threads[t].held, Fresh(s.threads[t].pc));
    OwnersRespect(s.shared, s'.shared, s.threads[t].held * kept, Fresh(pc));
    Stable(s.shared, s'.shared, s'.threads[t]);
    HeadsAfterOwners(s, t, s');
    FreshStays(s, t, s');
    StepKeeps(s, t, s', s'.threads[t]);
  }

  lemma ReleaseKeeps(s: State, t: nat, s': State)
    requires Inv(s) && Release(s, t, s')
    ensures Inv(s')
  {
    hide NodesOk, LayersOk, NoneLost, LocksOk, FreshApart, HeadsOk;
    var held := s.threads[t].held;
    assert held - {} == held && held * {} == {};
    FreeStep(s, t, s', {}, s'.threads[t].pc);
  }

  // ----- one node changed, links and layers untouched

  /** Only node n differs: in its flags, or in links that no other node can rely on. */
  ghost predicate OneChanged(nodes: seq<Node>, nodes': seq<Node>, n: nat) {
    && n < |nodes| == |nodes'| && nodes' == nodes[n := nodes'[n]]
    && SameNode(nodes[n], nodes'[n]) && nodes'[n].linked == nodes[n].linked && nodes'[n].owner == nodes[n].owner
  }

  lemma OneChangedNodes(nodes: seq<Node>, nodes': seq<Node>, n: nat)
    requires NodesOk(nodes) && OneChanged(nodes, nodes', n) && NodeOk(nodes', n)
    ensures NodesOk(nodes') && Grown(nodes, nodes')
  {
    forall m | 0 <= m < |nodes'|
      ensures NodeOk(nodes', m)
    {
      if m != n {
        assert NodeOk(nodes, m);
        forall l | 0 <= l < |nodes[m].skip|
          ensures LinkOk(nodes', m, l)
        {
          assert LinkOk(nodes, m, l);
        }
      }
    }
  }

  lemma OneChangedLayers(sh: Shared, sh': Shared, n: nat)
    requires LayersOk(sh) && NoneLost(sh) && OneChanged(sh.nodes, sh'.nodes, n) && sh' == sh.(nodes := sh'.nodes)
    requires n == sh.head ==> !sh'.nodes[n].marked
    requires forall l: nat | l < |sh.layers| && (n == sh.head || n in sh.layers[l]) && l < |sh.nodes[n].skip| ::
               sh'.nodes[n].skip[l] == sh.nodes[n].skip[l]
    ensures LayersOk(sh') && NoneLost(sh')
  {
    forall l | 0 <= l < |sh.layers|
      ensures IsChain(sh'.nodes, sh.head, l, sh.layers[l])
    {
      ChainStays(sh.nodes, sh'.nodes, sh.head, l, sh.layers[l]);
    }
    forall m | 0 <= m < |sh'.nodes|
      ensures Present(sh', m)
    {
      assert Present(sh, m);
    }
  }

  lemma OneChangedKeeps(sh: Shared, sh': Shared, n: nat, held: set<nat>, mine: Link)
    requires OneChanged(sh.nodes, sh'.nodes, n) && sh' == sh.(nodes := sh'.nodes) && Grown(sh.nodes, sh'.nodes)
    requires n in held || mine == To(n)
    requires mine == To(n) && sh.nodes[n].linked > 0 ==> LockedSame(sh.nodes[n], sh'.nodes[n])
    requires n in held && InTheMaking(sh.nodes[n]) ==> FreshSame(sh.nodes[n], sh'.nodes[n])
    ensures KeepsToItself(sh, sh', held, mine)
  {
  }

  /** A step that changes one node and no more. */
  lemma OneStep(s: State, t: nat, s': State, n: nat)
    requires Inv(s) && t in s.threads && t in s'.threads && s'.threads == s.threads[t := s'.threads[t]]
    requires s'.threads[t].held == s.threads[t].held && s'.shared == s.shared.(nodes := s'.shared.nodes)
    requires OneChanged(s.shared.nodes, s'.shared.nodes, n) && NodeOk(s'.shared.nodes, n)
    requires n == s.shared.head ==> !s'.shared.nodes[n].marked
    requires forall l: nat | l < |s.shared.layers| && (n == s.shared.head || n in s.shared.layers[l]) && l < |s.shared.nodes[n].skip| ::
               s'.shared.nodes[n].skip[l] == s.shared.nodes[n].skip[l]
    requires n in s.threads[t].held || Fresh(s.threads[t].pc) == To(n)
    requires Fresh(s.threads[t].pc) == To(n) && s.shared.nodes[n].linked > 0 ==> LockedSame(s.shared.nodes[n], s'.shared.nodes[n])
    requires n in s.threads[t].held && InTheMaking(s.shared.nodes[n]) ==> FreshSame(s.shared.nodes[n], s'.shared.nodes[n])
    requires Fresh(s'.threads[t].pc) == Nil || Fresh(s'.threads[t].pc) == Fresh(s.threads[t].pc)
    requires s.threads[t].pc.GrowSwapped? ==> s.threads[t].pc == GrowSwapped(n) && s'.shared.nodes[n].marked
    requires ThreadOk(s'.shared, s'.threads[t])
    ensures Inv(s')
  {
    hide NodesOk, LayersOk, NoneLost, ThreadOk, LocksOk, FreshApart, HeadsOk, KeepsToItself;
    OneChangedNodes(s.shared.nodes, s'.shared.nodes, n);
    OneChangedLayers(s.shared, s'.shared, n);
    OneChangedKeeps(s.shared, s'.shared, n, s.threads[t].held, Fresh(s.threads[t].pc));
    SameLocks(s, t, s');
    FreshStays(s, t, s');
    HeadsAfterOne(s, t, s', n);
    StepKeeps(s, t, s', s'.threads[t]);
  }

  lemma HeadsAfterOne(s: State, t: nat, s': State, n: nat)
    requires HeadsOk(s) && t in s.threads && t in s'.threads && s'.threads == s.threads[t := s'.threads[t]]
    requires OneChanged(s.shared.nodes, s'.shared.nodes, n) && s'.shared == s.shared.(nodes := s'.shared.nodes)
    requires s.threads[t].pc.GrowSwapped? ==> s.threads[t].pc == GrowSwapped(n) && s'.shared.nodes[n].marked
    ensures HeadsOk(s')
  {
    forall m | 0 <= m < |s'.shared.nodes| && s'.shared.nodes[m].isHead && s'.shared.nodes[m].linked > 0
               && !s'.shared.nodes[m].marked && m != s'.shared.head
      ensures s'.shared.nodes[m].owner.By? && s'.shared.nodes[m].owner.tid in s'.threads
      ensures s'.threads[s'.shared.nodes[m].owner.tid].pc == GrowSwapped(m)
    {
      assert !s.shared.nodes[m].marked;
      assert s.threads[s.shared.nodes[m].owner.tid].pc == GrowSwapped(m);
    }
  }

  lemma MarkedVictim(sh: Shared, victim: nat, held: set<nat>, data: int, sh': Shared)
    requires NodesOk(sh.nodes) && LayersOk(sh) && NoneLost(sh) && victim < |sh.nodes| && victim in held
    requires var x := sh.nodes[victim]; !x.isHead && x.full && x.key == data && !x.marked
    requires sh' == sh.(nodes := sh.nodes[victim := sh.nodes[victim].(marked := true)])
    ensures VictimOk(sh', held, victim, data, |sh.nodes[victim].skip|)
    ensures OneChanged(sh.nodes, sh'.nodes, victim) && NodeOk(sh'.nodes, victim)
  {
    var n := |sh.nodes[victim].skip|;
    assert NodeOk(sh.nodes, victim) && Present(sh, victim);
    assert InLayer(sh.layers, n - 1, victim);
    forall l | 0 <= l < n
      ensures LinkOk(sh'.nodes, victim, l)
    {
      assert LinkOk(sh.nodes, victim, l);
    }
  }

  lemma MarkVictimKeeps(s: State, t: nat, s': State)
    requires Inv(s) && MarkVictim(s, t, s')
    ensures Inv(s')
  {
    hide NodesOk, LayersOk, NoneLost, LocksOk, FreshApart, HeadsOk, SearchedFor, VictimOk, AllValidated;
    var pc, held := s.threads[t].pc, s.threads[t].held;
    assert ThreadOk(s.shared, s.threads[t]);
    if s.shared.nodes[pc.victim].marked {
      LocalStep(s, t, s', s'.threads[t].pc);
    } else {
      MarkedVictim(s.shared, pc.victim, held, pc.data, s'.shared);
      OneChangedNodes(s.shared.nodes, s'.shared.nodes, pc.victim);
      SearchedStays(s.shared.nodes, s'.shared.nodes, pc.data, pc.preds, pc.succs);
      SearchedLength(s.shared.nodes, pc.data, pc.preds, pc.succs);
      NoneValidated(s'.shared.nodes, held, pc.preds, pc.succs);
      HasHeight(s.shared, pc.victim);
      HeadIsHead(s.shared);
      OneStep(s, t, s', pc.victim);
    }
  }

  lemma SearchedLength(nodes: seq<Node>, data: int, preds: seq<nat>, succs: seq<Link>)
    requires SearchedFor(nodes, data, preds, succs)
    ensures |preds| == |succs|
  {
  }

  lemma HeadIsHead(sh: Shared)
    requires LayersOk(sh)
    ensures sh.head < |sh.nodes| && sh.nodes[sh.head].isHead && !sh.nodes[sh.head].marked
    ensures sh.nodes[sh.head].linked == |sh.nodes[sh.head].skip| == |sh.layers|
    ensures forall l: nat, n: nat | InLayer(sh.layers, l, n) :: n < |sh.nodes| && !sh.nodes[n].isHead && l < sh.nodes[n].linked
  {
  }

  lemma GrowMarkKeeps(s: State, t: nat, s': State)
    requires Inv(s) && GrowMark(s, t, s')
    ensures Inv(s')
  {
    hide NodesOk, LayersOk, NoneLost, LocksOk, FreshApart, HeadsOk;
    var n := s.threads[t].pc.oldHead;
    assert ThreadOk(s.shared, s.threads[t]);
    FlagOnly(s.shared.nodes, s'.shared.nodes, n);
    OneStep(s, t, s', n);
  }

  lemma FlagOnly(nodes: seq<Node>, nodes': seq<Node>, n: nat)
    requires NodesOk(nodes) && n < |nodes| == |nodes'| && nodes' == nodes[n := nodes'[n]]
    requires
      || (nodes'[n] == nodes[n].(marked := true) && nodes[n].isHead)
      || (nodes'[n] == nodes[n].(full := true) && nodes[n].linked == |nodes[n].skip|)
    ensures OneChanged(nodes, nodes', n) && NodeOk(nodes', n)
  {
    assert NodeOk(nodes, n);
    forall l | 0 <= l < |nodes[n].skip|
      ensures LinkOk(nodes', n, l)
    {
      assert LinkOk(nodes, n, l);
    }
  }

  lemma SetFullKeeps(s: State, t: nat, s': State)
    requires Inv(s) && SetFull(s, t, s')
    ensures Inv(s')
  {
    hide NodesOk, LayersOk, NoneLost, LocksOk, FreshApart, HeadsOk, KeysFit, AllValidated;
    var n := s.threads[t].pc.node;
    assert ThreadOk(s.shared, s.threads[t]);
    FlagOnly(s.shared.nodes, s'.shared.nodes, n);
    HeadIsHead(s.shared);
    OneStep(s, t, s', n);
  }

  // ----- private stores

  lemma OwnStored(nodes: seq<Node>, node: nat, data: int, k: nat, preds: seq<nat>, succs: seq<Link>)
    requires NodesOk(nodes) && NewNode(nodes, node, data, k) && k < |nodes[node].skip| <= |preds|
    requires KeysFit(nodes, Add, data, preds, succs)
    ensures |preds| == |succs|
    ensures
      var nodes' := SetSkip(nodes, node, k, succs[k]);
      && OneChanged(nodes, nodes', node) && NodeOk(nodes', node) && Grown(nodes, nodes')
      && NewNode(nodes', node, data, k) && nodes'[node].skip[k] == succs[k]
      && LockedSame(nodes[node], nodes'[node])
  {
    var nodes' := SetSkip(nodes, node, k, succs[k]);
    assert NodeOk(nodes, node);
    assert RightOf(nodes, succs[k], k, data, false);
    forall l | 0 <= l < |nodes[node].skip|
      ensures LinkOk(nodes', node, l)
    {
      assert LinkOk(nodes, node, l);
    }
  }

  lemma ValidatedElsewhere(nodes: seq<Node>, nodes': seq<Node>, node: nat, held: set<nat>, lo: nat, hi: nat, preds: seq<nat>, succs: seq<Link>)
    requires AllValidated(nodes, held, lo, hi, preds, succs) && node !in preds
    requires |nodes'| >= |nodes| && forall n | 0 <= n < |nodes| && n != node :: nodes'[n] == nodes[n]
    ensures AllValidated(nodes', held, lo, hi, preds, succs)
  {
  }

  lemma StoreOwnKeeps(s: State, t: nat, s': State)
    requires Inv(s) && StoreOwn(s, t, s')
    ensures Inv(s')
  {
    hide NodesOk, LayersOk, NoneLost, LocksOk, FreshApart, HeadsOk, KeysFit, AllValidated;
    var pc, nodes, held := s.threads[t].pc, s.shared.nodes, s.threads[t].held;
    assert ThreadOk(s.shared, s.threads[t]);
    OwnStored(nodes, pc.node, pc.data, pc.k, pc.preds, pc.succs);
    KeysStay(nodes, s'.shared.nodes, Add, pc.data, pc.preds, pc.succs);
    ValidatedElsewhere(nodes, s'.shared.nodes, pc.node, held, pc.k, |nodes[pc.node].skip|, pc.preds, pc.succs);
    HeadIsHead(s.shared);
    NotYetIn(s.shared, pc.node, pc.k);
    OneStep(s, t, s', pc.node);
  }

  lemma NotYetIn(sh: Shared, node: nat, k: nat)
    requires LayersOk(sh) && node < |sh.nodes| && sh.nodes[node].linked <= k
    ensures !InLayer(sh.layers, k, node)
  {
  }

  lemma HeadCopied(nodes: seq<Node>, node: nat, oldHead: nat)
    requires NodesOk(nodes) && PrivateHead(nodes, node, oldHead) && UnusedHead(nodes, node)
    ensures
      var nodes' := CopyHead(nodes, node, oldHead);
      && OneChanged(nodes, nodes', node)
      && NodeOk(nodes', node) && PrivateHead(nodes', node, oldHead) && CopiedHead(nodes', node, oldHead)
  {
    var nodes' := CopyHead(nodes, node, oldHead);
    assert NodeOk(nodes, node) && NodeOk(nodes, oldHead);
    forall l | 0 <= l < |nodes[node].skip|
      ensures LinkOk(nodes', node, l)
    {
      if l < |nodes[oldHead].skip| { assert LinkOk(nodes, oldHead, l); }
    }
  }

  lemma GrowCopyKeeps(s: State, t: nat, s': State)
    requires Inv(s) && GrowCopy(s, t, s')
    ensures Inv(s')
  {
    hide NodesOk, LayersOk, NoneLost, LocksOk, FreshApart, HeadsOk, UnusedHead;
    var pc := s.threads[t].pc;
    assert ThreadOk(s.shared, s.threads[t]);
    HeadCopied(s.shared.nodes, pc.node, pc.oldHead);
    HeadIsHead(s.shared);
    HasHeight(s.shared, s.shared.head);
    HeldElse(s, t, pc.node);
    HeadUnlisted(s.shared, pc.node);
    OneStep(s, t, s', pc.node);
  }

  lemma HeadUnlisted(sh: Shared, n: nat)
    requires LayersOk(sh) && n < |sh.nodes| && sh.nodes[n].isHead
    ensures forall l: nat | l < |sh.layers| :: n !in sh.layers[l]
  {
    forall l: nat | l < |sh.layers|
      ensures n !in sh.layers[l]
    {
      assert !InLayer(sh.layers, l, n);
    }
  }

  /** Nobody holds the lock of a node that is in no layer. */
  lemma HeldElse(s: State, t: nat, n: nat)
    requires NodesOk(s.shared.nodes) && LocksOk(s) && n < |s.shared.nodes| && s.shared.nodes[n].linked == 0
    ensures !Holds(s, t, n)
  {
    assert NodeOk(s.shared.nodes, n);
    assert Holds(s, t, n) <==> OwnedBy(s.shared.nodes, n, t);
  }

  // ----- new nodes

  lemma Appended(sh: Shared, x: Node, held: set<nat>, mine: Link)
    requires NodesOk(sh.nodes) && LayersOk(sh) && NoneLost(sh)
    requires 0 < |x.skip| && x.linked == 0 && !x.full && !x.marked && x.owner == Free
    requires forall l | 0 <= l < |x.skip| :: x.skip[l] == Nil
    ensures
      var sh' := sh.(nodes := sh.nodes + [x]);
      NodesOk(sh'.nodes) && LayersOk(sh') && NoneLost(sh') && KeepsToItself(sh, sh', held, mine) && Grown(sh.nodes, sh'.nodes)
  {
    var sh' := sh.(nodes := sh.nodes + [x]);
    forall n | 0 <= n < |sh'.nodes|
      ensures NodeOk(sh'.nodes, n) && Present(sh', n)
    {
      if n < |sh.nodes| {
        assert NodeOk(sh.nodes, n) && Present(sh, n);
        forall l | 0 <= l < |sh.nodes[n].skip|
          ensures LinkOk(sh'.nodes, n, l)
        {
          assert LinkOk(sh.nodes, n, l);
        }
      }
    }
    forall l | 0 <= l < |sh.layers|
      ensures IsChain(sh'.nodes, sh.head, l, sh.layers[l])
    {
      ChainStays(sh.nodes, sh'.nodes, sh.head, l, sh.layers[l]);
    }
  }

  lemma AppendStep(s: State, t: nat, s': State, x: Node)
    requires Inv(s) && t in s.threads && t in s'.threads && s'.threads == s.threads[t := s'.threads[t]]
    requires s'.shared == s.shared.(nodes := s.shared.nodes + [x]) && s'.threads[t].held == s.threads[t].held
    requires 0 < |x.skip| && x.linked == 0 && !x.full && !x.marked && x.owner == Free
    requires forall l | 0 <= l < |x.skip| :: x.skip[l] == Nil
    requires !s.threads[t].pc.GrowSwapped? && Fresh(s'.threads[t].pc) == To(|s.shared.nodes|)
    requires ThreadOk(s'.shared, s'.threads[t])
    ensures Inv(s')
  {
    hide NodesOk, LayersOk, NoneLost, ThreadOk, LocksOk, KeepsToItself;
    Appended(s.shared, x, s.threads[t].held, Fresh(s.threads[t].pc));
    SameLocks(s, t, s');
    forall u, v | u in s'.threads && v in s'.threads && u != v && Fresh(s'.threads[u].pc).To?
      ensures Fresh(s'.threads[u].pc) != Fresh(s'.threads[v].pc)
    {
      if u != t { MakingInTheMaking(s.shared, s.threads[u]); }
      if v != t { MakingInTheMaking(s.shared, s.threads[v]); }
    }
    HeadsAfterAppend(s, t, s');
    StepKeeps(s, t, s', s'.threads[t]);
  }

  lemma HeadsAfterAppend(s: State, t: nat, s': State)
    requires HeadsOk(s) && t in s.threads && t in s'.threads && s'.threads == s.threads[t := s'.threads[t]]
    requires |s'.shared.nodes| == |s.shared.nodes| + 1 && s'.shared.nodes[..|s.shared.nodes|] == s.shared.nodes
    requires s'.shared.nodes[|s.shared.nodes|].linked == 0 && s'.shared.head == s.shared.head
    requires !s.threads[t].pc.GrowSwapped?
    ensures HeadsOk(s')
  {
    forall m | 0 <= m < |s'.shared.nodes| && s'.shared.nodes[m].isHead && s'.shared.nodes[m].linked > 0
               && !s'.shared.nodes[m].marked && m != s'.shared.head
      ensures s'.shared.nodes[m].owner.By? && s'.shared.nodes[m].owner.tid in s'.threads
      ensures s'.threads[s'.shared.nodes[m].owner.tid].pc == GrowSwapped(m)
    {
      assert s'.shared.nodes[m] == s.shared.nodes[m];
      assert s.threads[s.shared.nodes[m].owner.tid].pc == GrowSwapped(m);
    }
  }

  lemma GrowStartKeeps(s: State, t: nat, s': State, height: nat)
    requires Inv(s) && GrowStart(s, t, s', height)
    ensures Inv(s')
  {
    hide NodesOk, LayersOk, NoneLost, LocksOk, FreshApart, HeadsOk;
    HeadIsHead(s.shared);
    HasHeight(s.shared, s.shared.head);
    AppendStep(s, t, s', NewHeadOrNode(0, height, true));
  }

  // ----- the last check before a change

  lemma OneMoreValidated(nodes: seq<Node>, held: set<nat>, layer: nat, preds: seq<nat>, succs: seq<Link>, op: Op)
    requires AllValidated(nodes, held, 0, layer, preds, succs) && layer < |preds|
    requires preds[layer] in held && PredValid(nodes, op, layer, preds[layer], succs[layer])
    ensures AllValidated(nodes, held, 0, layer + 1, preds, succs)
  {
  }

  lemma KeptVictim(sh: Shared, held: set<nat>, op: Op, data: int, top: nat, top': nat)
    requires OpOk(sh, held, op, data, top) && !op.Remove? && NodesOk(sh.nodes) && top' + 1 == |sh.layers|
    ensures OpOk(sh, held * Kept(op), op, data, top')
  {
  }

  lemma PredsOld(nodes: seq<Node>, data: int, preds: seq<nat>, succs: seq<Link>)
    requires KeysFit(nodes, Add, data, preds, succs)
    ensures |nodes| !in preds
  {
  }

  lemma HeldOld(s: State, t: nat)
    requires LocksOk(s) && t in s.threads
    ensures |s.shared.nodes| !in s.threads[t].held
  {
    assert Holds(s, t, |s.shared.nodes|) <==> OwnedBy(s.shared.nodes, |s.shared.nodes|, t);
  }

  lemma TestPredKeeps(s: State, t: nat, s': State)
    requires Inv(s) && TestPred(s, t, s')
    ensures Inv(s')
  {
    hide NodesOk, LayersOk, NoneLost, LocksOk, FreshApart, HeadsOk, KeysFit, AllValidated, VictimOk, PredValid, OpOk;
    var pc, nodes, held := s.threads[t].pc, s.shared.nodes, s.threads[t].held;
    assert ThreadOk(s.shared, s.threads[t]);
    if !PredValid(nodes, pc.op, pc.layer, pc.preds[pc.layer], pc.succs[pc.layer]) {
      HeadIsHead(s.shared);
      HasHeight(s.shared, s.shared.head);
      KeptVictim(s.shared, held, pc.op, pc.data, pc.height - 1, MaxLayer(s.shared));
      FreeStep(s, t, s', Kept(pc.op), s'.threads[t].pc);
    } else {
      OneMoreValidated(nodes, held, pc.layer, pc.preds, pc.succs, pc.op);
      if pc.layer + 1 < pc.height {
        LocalStep(s, t, s', s'.threads[t].pc);
      } else if pc.op.Unfinished? {
        VictimOfOp(s.shared, held, pc.op, pc.data, pc.height - 1);
        LocalStep(s, t, s', s'.threads[t].pc);
      } else {
        CreateStep(s, t, s');
      }
    }
  }

  lemma VictimOfOp(sh: Shared, held: set<nat>, op: Op, data: int, top: nat)
    requires OpOk(sh, held, op, data, top) && op.Unfinished?
    ensures op.victim < |sh.nodes| && VictimOk(sh, held, op.victim, data, |sh.nodes[op.victim].skip|)
  {
  }

  lemma CreateStep(s: State, t: nat, s': State)
    requires Inv(s) && TestPred(s, t, s') && s'.threads[t].pc.LinkIn?
    ensures Inv(s')
  {
    hide NodesOk, LayersOk, NoneLost, LocksOk, FreshApart, HeadsOk, KeysFit, AllValidated, VictimOk, PredValid, OpOk;
    var pc, nodes, held := s.threads[t].pc, s.shared.nodes, s.threads[t].held;
    assert ThreadOk(s.shared, s.threads[t]);
    OneMoreValidated(nodes, held, pc.layer, pc.preds, pc.succs, pc.op);
    PredsOld(nodes, pc.data, pc.preds, pc.succs);
    HeldOld(s, t);
    var x := NewHeadOrNode(pc.data, pc.height, false);
    Appended(s.shared, x, held, Nil);
    KeysStay(nodes, s'.shared.nodes, Add, pc.data, pc.preds, pc.succs);
    ValidatedElsewhere(nodes, s'.shared.nodes, |nodes|, held, 0, pc.height, pc.preds, pc.succs);
    AppendStep(s, t, s', x);
  }

  // ----- the store that links a node into a layer

  /** An unmarked node that may stand left of data at a layer is part of that layer, or the head, if its lock is held. */
  lemma PredPresent(s: State, t: nat, pred: nat, l: nat, data: int)
    requires NodesOk(s.shared.nodes) && LayersOk(s.shared) && NoneLost(s.shared) && LocksOk(s) && HeadsOk(s)
    requires t in s.threads && !s.threads[t].pc.GrowSwapped?
    requires LeftOf(s.shared.nodes, pred, l, data) && pred in s.threads[t].held && !s.shared.nodes[pred].marked
    ensures l < |s.shared.layers| && (pred == s.shared.head || pred in s.shared.layers[l])
  {
    var sh := s.shared;
    assert NodeOk(sh.nodes, pred) && Present(sh, pred);
    if sh.nodes[pred].isHead {
      assert Holds(s, t, pred) <==> OwnedBy(sh.nodes, pred, t);
    } else {
      assert InLayer(sh.layers, l, pred);
    }
  }

  lemma LayerSorted(sh: Shared, l: nat)
    requires NodesOk(sh.nodes) && LayersOk(sh) && l < |sh.layers|
    ensures IsChain(sh.nodes, sh.head, l, sh.layers[l]) && IsSorted(sh.nodes, sh.layers[l]) && sh.head !in sh.layers[l]
  {
    forall i | 0 <= i < |sh.layers[l]|
      ensures Listed(sh.nodes, sh.layers[l][i])
    {
      assert InLayer(sh.layers, l, sh.layers[l][i]);
    }
    ChainSorted(sh.nodes, sh.head, l, sh.layers[l]);
    HeadUnlisted(sh, sh.head);
  }

  /** What the thread knows when it stores the link. */
  ghost predicate CanLink(sh: Shared, pred: nat, k: nat, node: nat, data: int) {
    && k < |sh.layers| && (pred == sh.head || pred in sh.layers[k]) && pred != node
    && LeftOf(sh.nodes, pred, k, data)
    && NewNode(sh.nodes, node, data, k) && k < |sh.nodes[node].skip|
    && HasLink(sh.nodes, pred, k, sh.nodes[node].skip[k])
  }

  lemma LinkNodes(sh: Shared, pred: nat, k: nat, node: nat, data: int)
    requires NodesOk(sh.nodes) && CanLink(sh, pred, k, node, data)
    ensures NodesOk(LinkedIn(sh, pred, k, node).nodes) && Grown(sh.nodes, LinkedIn(sh, pred, k, node).nodes)
  {
    var nodes, nodes' := sh.nodes, LinkedIn(sh, pred, k, node).nodes;
    forall n | 0 <= n < |nodes'|
      ensures NodeOk(nodes', n)
    {
      assert NodeOk(nodes, n);
      forall l | 0 <= l < |nodes[n].skip|
        ensures LinkOk(nodes', n, l)
      {
        assert LinkOk(nodes, n, l);
      }
    }
  }

  lemma LinkChains(sh: Shared, pred: nat, k: nat, node: nat, data: int)
    requires NodesOk(sh.nodes) && LayersOk(sh) && CanLink(sh, pred, k, node, data)
    ensures
      var sh' := LinkedIn(sh, pred, k, node);
      forall l | 0 <= l < |sh'.layers| :: IsChain(sh'.nodes, sh'.head, l, sh'.layers[l])
  {
    hide NodesOk, IsSorted, IsChain;
    var sh' := LinkedIn(sh, pred, k, node);
    var between := SetSkip(sh.nodes, pred, k, To(node));
    LayerSorted(sh, k);
    assert !InLayer(sh.layers, k, node);
    ChainInsert(sh.nodes, sh.head, k, sh.layers[k], pred, node);
    forall l | 0 <= l < |sh'.layers|
      ensures IsChain(sh'.nodes, sh'.head, l, sh'.layers[l])
    {
      if l == k {
        ChainStays(between, sh'.nodes, sh.head, l, sh'.layers[l]);
      } else {
        ChainStays(sh.nodes, sh'.nodes, sh.head, l, sh.layers[l]);
      }
    }
  }

  lemma LinkMembers(sh: Shared, pred: nat, k: nat, node: nat, data: int)
    requires CanLink(sh, pred, k, node, data)
    ensures
      var sh' := LinkedIn(sh, pred, k, node);
      forall l: nat, n: nat :: InLayer(sh'.layers, l, n) <==> InLayer(sh.layers, l, n) || (l == k && n == node)
  {
  }

  lemma LinkLayers(sh: Shared, pred: nat, k: nat, node: nat, data: int)
    requires NodesOk(sh.nodes) && LayersOk(sh) && NoneLost(sh) && CanLink(sh, pred, k, node, data)
    ensures LayersOk(LinkedIn(sh, pred, k, node)) && NoneLost(LinkedIn(sh, pred, k, node))
  {
    hide NodesOk, IsChain, InLayer;
    var sh' := LinkedIn(sh, pred, k, node);
    LinkChains(sh, pred, k, node, data);
    LinkMembers(sh, pred, k, node, data);
    assert Present(sh, node);
    forall l: nat, m: nat, n: nat | l < m && InLayer(sh'.layers, m, n)
      ensures InLayer(sh'.layers, l, n)
    {
      if !InLayer(sh.layers, m, n) { assert InLayer(sh.layers, l, node); }
    }
    forall n | 0 <= n < |sh'.nodes|
      ensures Present(sh', n)
    {
      assert Present(sh, n);
    }
  }

  lemma LinkKeepsToItself(sh: Shared, pred: nat, k: nat, node: nat, data: int, held: set<nat>)
    requires NodesOk(sh.nodes) && CanLink(sh, pred, k, node, data) && pred in held && node !in held
    ensures KeepsToItself(sh, LinkedIn(sh, pred, k, node), held, To(node))
  {
    hide NodesOk, InLayer;
    LinkNodes(sh, pred, k, node, data);
    LinkMembers(sh, pred, k, node, data);
  }

  lemma NextValidated(nodes: seq<Node>, nodes': seq<Node>, held: set<nat>, k: nat, hi: nat, preds: seq<nat>, succs: seq<Link>, node: nat)
    requires k < hi && AllValidated(nodes, held, k, hi, preds, succs) && node !in preds
    requires |nodes'| >= |nodes| && forall n | 0 <= n < |nodes| && n != node ::
               |nodes'[n].skip| == |nodes[n].skip| && nodes'[n].marked == nodes[n].marked
               && forall l | k < l < |nodes[n].skip| :: nodes'[n].skip[l] == nodes[n].skip[l]
    ensures AllValidated(nodes', held, k + 1, hi, preds, succs)
  {
  }

  lemma ReadyToLink(s: State, t: nat)
    requires Inv(s) && t in s.threads && s.threads[t].pc.LinkIn?
    requires var pc := s.threads[t].pc; pc.stored && pc.node < |s.shared.nodes| && pc.k < |pc.preds| && pc.k < |s.shared.layers|
    ensures
      var pc := s.threads[t].pc;
      CanLink(s.shared, pc.preds[pc.k], pc.k, pc.node, pc.data) && pc.preds[pc.k] in s.threads[t].held
  {
    hide NodesOk, LayersOk, NoneLost, LocksOk, FreshApart, HeadsOk, KeysFit;
    var pc, nodes, held := s.threads[t].pc, s.shared.nodes, s.threads[t].held;
    assert ThreadOk(s.shared, s.threads[t]);
    assert Validated(nodes, held, pc.k, pc.preds[pc.k], pc.succs[pc.k]);
    KeysLinked(nodes, Add, pc.data, pc.preds, pc.succs, pc.k);
    PredPresent(s, t, pc.preds[pc.k], pc.k, pc.data);
  }

  lemma StorePredKeeps(s: State, t: nat, s': State)
    requires Inv(s) && StorePred(s, t, s')
    ensures Inv(s')
  {
    hide NodesOk, LayersOk, NoneLost, LocksOk, FreshApart, HeadsOk, KeysFit, AllValidated, KeepsToItself;
    var pc, sh, held := s.threads[t].pc, s.shared, s.threads[t].held;
    assert ThreadOk(sh, s.threads[t]);
    ReadyToLink(s, t);
    var pred := pc.preds[pc.k];
    LinkNodes(sh, pred, pc.k, pc.node, pc.data);
    LinkLayers(sh, pred, pc.k, pc.node, pc.data);
    LinkKeepsToItself(sh, pred, pc.k, pc.node, pc.data, held);
    KeysStay(sh.nodes, s'.shared.nodes, Add, pc.data, pc.preds, pc.succs);
    NextValidated(sh.nodes, s'.shared.nodes, held, pc.k, |sh.nodes[pc.node].skip|, pc.preds, pc.succs, pc.node);
    SameLocks(s, t, s');
    FreshStays(s, t, s');
    HeadsAfterLinks(s, t, s');
    StepKeeps(s, t, s', s'.threads[t]);
  }

  lemma HeadsAfterLinks(s: State, t: nat, s': State)
    requires HeadsOk(s) && t in s.threads && t in s'.threads && s'.threads == s.threads[t := s'.threads[t]]
    requires !s.threads[t].pc.GrowSwapped? && s'.shared.head == s.shared.head && |s'.shared.nodes| == |s.shared.nodes|
    requires forall n | 0 <= n < |s.shared.nodes| ::
               var x, y := s.shared.nodes[n], s'.shared.nodes[n];
               y.isHead == x.isHead && y.marked == x.marked && y.owner == x.owner && (x.isHead ==> y.linked == x.linked)
    ensures HeadsOk(s')
  {
    forall m | 0 <= m < |s'.shared.nodes| && s'.shared.nodes[m].isHead && s'.shared.nodes[m].linked > 0
               && !s'.shared.nodes[m].marked && m != s'.shared.head
      ensures s'.shared.nodes[m].owner.By? && s'.shared.nodes[m].owner.tid in s'.threads
      ensures s'.threads[s'.shared.nodes[m].owner.tid].pc == GrowSwapped(m)
    {
      assert s.threads[s.shared.nodes[m].owner.tid].pc == GrowSwapped(m);
    }
  }

  // ----- the store that takes a node out of a layer

  ghost predicate CanUnlink(sh: Shared, pred: nat, k: nat, victim: nat) {
    && k < |sh.layers| && (pred == sh.head || pred in sh.layers[k]) && pred < |sh.nodes| && k < sh.nodes[pred].linked
    && victim < |sh.nodes| && k < |sh.nodes[victim].skip| && sh.nodes[victim].marked && !sh.nodes[victim].isHead
    && HasLink(sh.nodes, pred, k, To(victim))
    && (forall l: nat :: InLayer(sh.layers, l, victim) <==> l < k + 1)
  }

  /** A validated predecessor of a victim that is still in the layer links to just that victim. */
  lemma NextIsVictim(sh: Shared, pred: nat, k: nat, succ: Link, victim: nat, data: int)
    requires NodesOk(sh.nodes) && LayersOk(sh) && InLayer(sh.layers, k, victim) && victim < |sh.nodes|
    requires sh.nodes[victim].key == data && (pred == sh.head || pred in sh.layers[k])
    requires HasLink(sh.nodes, pred, k, succ) && LeftOf(sh.nodes, pred, k, data)
    requires RightOf(sh.nodes, succ, k, data, true) || RightOf(sh.nodes, succ, k, data, false)
    ensures succ == To(victim)
  {
    LayerSorted(sh, k);
    var ids := sh.layers[k];
    var i := Position(sh.nodes, sh.head, k, ids, pred);
    var j := IndexOf(ids, victim);
    // Before position i the keys are smaller than the victim's, and behind it greater.
    if i > 0 { assert InLayer(sh.layers, k, ids[i - 1]); }
  }

  lemma UnlinkNodes(sh: Shared, pred: nat, k: nat, victim: nat)
    requires NodesOk(sh.nodes) && CanUnlink(sh, pred, k, victim)
    ensures
      var nodes' := UnlinkedFrom(sh, pred, k, victim).nodes;
      NodesOk(nodes') && Grown(sh.nodes, nodes')
  {
    var nodes, nodes' := sh.nodes, UnlinkedFrom(sh, pred, k, victim).nodes;
    assert NodeOk(nodes, pred) && NodeOk(nodes, victim);
    assert LinkOk(nodes, pred, k) && LinkOk(nodes, victim, k);
    forall n | 0 <= n < |nodes'|
      ensures NodeOk(nodes', n)
    {
      assert NodeOk(nodes, n);
      forall l | 0 <= l < |nodes[n].skip|
        ensures LinkOk(nodes', n, l)
      {
        assert LinkOk(nodes, n, l);
      }
    }
  }

  lemma UnlinkMembers(sh: Shared, pred: nat, k: nat, victim: nat)
    requires NodesOk(sh.nodes) && LayersOk(sh) && CanUnlink(sh, pred, k, victim)
    ensures
      var sh' := UnlinkedFrom(sh, pred, k, victim);
      forall l: nat, n: nat :: InLayer(sh'.layers, l, n) <==> InLayer(sh.layers, l, n) && !(l == k && n == victim)
  {
    LayerSorted(sh, k);
    WithoutMembers(sh.nodes, sh.layers[k], victim);
  }

  lemma UnlinkChains(sh: Shared, pred: nat, k: nat, victim: nat)
    requires NodesOk(sh.nodes) && LayersOk(sh) && CanUnlink(sh, pred, k, victim)
    ensures
      var sh' := UnlinkedFrom(sh, pred, k, victim);
      forall l | 0 <= l < |sh'.layers| :: IsChain(sh'.nodes, sh'.head, l, sh'.layers[l])
  {
    hide NodesOk, IsSorted, IsChain;
    var sh' := UnlinkedFrom(sh, pred, k, victim);
    LayerSorted(sh, k);
    assert InLayer(sh.layers, k, victim);
    ChainRemove(sh.nodes, sh.head, k, sh.layers[k], pred, victim);
    forall l | 0 <= l < |sh'.layers|
      ensures IsChain(sh'.nodes, sh'.head, l, sh'.layers[l])
    {
      if l != k { ChainStays(sh.nodes, sh'.nodes, sh.head, l, sh.layers[l]); }
    }
  }

  lemma UnlinkLayers(sh: Shared, pred: nat, k: nat, victim: nat)
    requires NodesOk(sh.nodes) && LayersOk(sh) && NoneLost(sh) && CanUnlink(sh, pred, k, victim)
    ensures LayersOk(UnlinkedFrom(sh, pred, k, victim)) && NoneLost(UnlinkedFrom(sh, pred, k, victim))
  {
    hide NodesOk, IsChain, InLayer;
    var sh' := UnlinkedFrom(sh, pred, k, victim);
    UnlinkChains(sh, pred, k, victim);
    UnlinkMembers(sh, pred, k, victim);
    forall n | 0 <= n < |sh'.nodes|
      ensures Present(sh', n)
    {
      assert Present(sh, n);
    }
  }

  lemma UnlinkKeepsToItself(sh: Shared, pred: nat, k: nat, victim: nat, held: set<nat>)
    requires NodesOk(sh.nodes) && LayersOk(sh) && CanUnlink(sh, pred, k, victim) && pred in held && victim in held
    ensures KeepsToItself(sh, UnlinkedFrom(sh, pred, k, victim), held, Nil)
  {
    hide NodesOk, LayersOk, InLayer;
    UnlinkNodes(sh, pred, k, victim);
    UnlinkMembers(sh, pred, k, victim);
  }

  lemma LowerValidated(nodes: seq<Node>, nodes': seq<Node>, held: set<nat>, k: nat, preds: seq<nat>, succs: seq<Link>)
    requires AllValidated(nodes, held, 0, k + 1, preds, succs)
    requires |nodes'| >= |nodes| && forall n | 0 <= n < |nodes| ::
               |nodes'[n].skip| == |nodes[n].skip| && nodes'[n].marked == nodes[n].marked
               && forall l | 0 <= l < k && l < |nodes[n].skip| :: nodes'[n].skip[l] == nodes[n].skip[l]
    ensures AllValidated(nodes', held, 0, k, preds, succs)
  {
  }

  lemma ReadyToUnlink(s: State, t: nat)
    requires Inv(s) && t in s.threads && s.threads[t].pc.Unlink? && s.threads[t].pc.k > 0
    ensures
      var pc := s.threads[t].pc;
      && pc.k <= |pc.preds| && CanUnlink(s.shared, pc.preds[pc.k - 1], pc.k - 1, pc.victim)
      && pc.preds[pc.k - 1] in s.threads[t].held && pc.victim in s.threads[t].held
  {
    hide NodesOk, LayersOk, NoneLost, LocksOk, FreshApart, HeadsOk;
    var pc, sh, held := s.threads[t].pc, s.shared, s.threads[t].held;
    assert ThreadOk(sh, s.threads[t]);
    var k := pc.k - 1;
    var pred := pc.preds[k];
    assert Validated(sh.nodes, held, k, pred, pc.succs[k]);
    KeysLinked(sh.nodes, Unfinished(pc.victim), pc.data, pc.preds, pc.succs, k);
    PredPresent(s, t, pred, k, pc.data);
    assert InLayer(sh.layers, k, pc.victim);
    NextIsVictim(sh, pred, k, pc.succs[k], pc.victim, pc.data);
  }

  lemma StoreUnlinkKeeps(s: State, t: nat, s': State)
    requires Inv(s) && StoreUnlink(s, t, s')
    ensures Inv(s')
  {
    hide NodesOk, LayersOk, NoneLost, LocksOk, FreshApart, HeadsOk, KeysFit, AllValidated, KeepsToItself, VictimOk, InLayer,
         Without, Neighbours, SearchedFor, OpOk, PrivateHead, UnusedHead, CopiedHead, NewNode;
    var pc, sh, held := s.threads[t].pc, s.shared, s.threads[t].held;
    assert ThreadOk(sh, s.threads[t]);
    if pc.k == 0 {
      VictimKey(sh, held, pc.victim, pc.data, 0);
      LocalStep(s, t, s', s'.threads[t].pc);
    } else {
      ReadyToUnlink(s, t);
      var k := pc.k - 1;
      var pred := pc.preds[k];
      UnlinkNodes(sh, pred, k, pc.victim);
      UnlinkLayers(sh, pred, k, pc.victim);
      UnlinkMembers(sh, pred, k, pc.victim);
      UnlinkKeepsToItself(sh, pred, k, pc.victim, held);
      KeysStay(sh.nodes, s'.shared.nodes, Unfinished(pc.victim), pc.data, pc.preds, pc.succs);
      LowerValidated(sh.nodes, s'.shared.nodes, held, k, pc.preds, pc.succs);
      SameLocks(s, t, s');
      FreshStays(s, t, s');
      HeadsAfterLinks(s, t, s');
      VictimLower(sh, s'.shared, held, pc.victim, pc.data, k);
      StepKeeps(s, t, s', s'.threads[t]);
    }
  }

  lemma VictimKey(sh: Shared, held: set<nat>, victim: nat, data: int, k: nat)
    requires VictimOk(sh, held, victim, data, k)
    ensures victim < |sh.nodes| && sh.nodes[victim].key == data
  {
  }

  lemma VictimLower(sh: Shared, sh': Shared, held: set<nat>, victim: nat, data: int, k: nat)
    requires VictimOk(sh, held, victim, data, k + 1) && |sh'.nodes| == |sh.nodes| && |sh'.layers| == |sh.layers|
    requires
      var x, y := sh.nodes[victim], sh'.nodes[victim];
      y.isHead == x.isHead && y.marked == x.marked && y.full == x.full && y.key == x.key && |y.skip| == |x.skip|
    requires forall l: nat, n: nat :: InLayer(sh'.layers, l, n) <==> InLayer(sh.layers, l, n) && !(l == k && n == victim)
    ensures VictimOk(sh', held, victim, data, k)
  {
  }

  // ----- publishing a taller head

  ghost predicate CanSwap(sh: Shared, node: nat) {
    PrivateHead(sh.nodes, node, sh.head) && CopiedHead(sh.nodes, node, sh.head)
  }

  lemma SwapNodes(sh: Shared, node: nat)
    requires NodesOk(sh.nodes) && LayersOk(sh) && CanSwap(sh, node)
    ensures NodesOk(Swapped(sh, node).nodes) && Grown(sh.nodes, Swapped(sh, node).nodes)
  {
    var nodes, nodes' := sh.nodes, Swapped(sh, node).nodes;
    forall n | 0 <= n < |nodes'|
      ensures NodeOk(nodes', n)
    {
      assert NodeOk(nodes, n);
      forall l | 0 <= l < |nodes[n].skip|
        ensures LinkOk(nodes', n, l)
      {
        assert LinkOk(nodes, n, l);
      }
    }
  }

  lemma SwapMembers(sh: Shared, node: nat)
    requires LayersOk(sh) && CanSwap(sh, node)
    ensures forall l: nat, n: nat :: InLayer(Swapped(sh, node).layers, l, n) <==> InLayer(sh.layers, l, n)
  {
  }

  lemma SwapChains(sh: Shared, node: nat)
    requires NodesOk(sh.nodes) && LayersOk(sh) && CanSwap(sh, node)
    ensures
      var sh' := Swapped(sh, node);
      forall l | 0 <= l < |sh'.layers| :: IsChain(sh'.nodes, node, l, sh'.layers[l])
  {
    var sh' := Swapped(sh, node);
    forall l | 0 <= l < |sh'.layers|
      ensures IsChain(sh'.nodes, node, l, sh'.layers[l])
    {
      var ids := sh'.layers[l];
      if l < |sh.layers| {
        HeadUnlisted(sh, node);
        assert IsChain(sh.nodes, sh.head, l, ids);
        assert HasLink(sh.nodes, Before(sh.head, ids, 0), l, LinkAt(ids, 0));
        forall i: nat | i <= |ids|
          ensures HasLink(sh'.nodes, Before(node, ids, i), l, LinkAt(ids, i))
        {
          if i > 0 { assert HasLink(sh.nodes, Before(sh.head, ids, i), l, LinkAt(ids, i)); }
        }
      }
    }
  }

  lemma SwapLayers(sh: Shared, node: nat)
    requires NodesOk(sh.nodes) && LayersOk(sh) && NoneLost(sh) && CanSwap(sh, node)
    ensures LayersOk(Swapped(sh, node)) && NoneLost(Swapped(sh, node))
  {
    hide NodesOk, IsChain, InLayer;
    var sh' := Swapped(sh, node);
    SwapChains(sh, node);
    SwapMembers(sh, node);
    forall n | 0 <= n < |sh'.nodes|
      ensures Present(sh', n)
    {
      assert Present(sh, n);
    }
  }

  lemma SwapKeepsToItself(sh: Shared, node: nat, held: set<nat>)
    requires NodesOk(sh.nodes) && LayersOk(sh) && CanSwap(sh, node) && node !in held
    ensures KeepsToItself(sh, Swapped(sh, node), held, To(node))
  {
    hide NodesOk, LayersOk, InLayer;
    SwapNodes(sh, node);
    SwapMembers(sh, node);
  }

  lemma GrowSwapKeeps(s: State, t: nat, s': State)
    requires Inv(s) && GrowSwap(s, t, s')
    ensures Inv(s')
  {
    hide NodesOk, LayersOk, NoneLost, LocksOk, FreshApart, HeadsOk, KeepsToItself;
    var pc, sh, held := s.threads[t].pc, s.shared, s.threads[t].held;
    assert ThreadOk(sh, s.threads[t]);
    if sh.head != pc.oldHead {
      LocalStep(s, t, s', s'.threads[t].pc);
    } else {
      HeldElse(s, t, pc.node);
      SwapNodes(sh, pc.node);
      SwapLayers(sh, pc.node);
      SwapKeepsToItself(sh, pc.node, held);
      SameLocks(s, t, s');
      FreshStays(s, t, s');
      HeadsAfterSwap(s, t, s');
      StepKeeps(s, t, s', s'.threads[t]);
    }
  }

  lemma HeadsAfterSwap(s: State, t: nat, s': State)
    requires HeadsOk(s) && LocksOk(s) && GrowSwap(s, t, s') && s.shared.head == s.threads[t].pc.oldHead
    requires s.shared.head in s.threads[t].held && s.shared.head < |s.shared.nodes|
    ensures HeadsOk(s')
  {
    assert Holds(s, t, s.shared.head) <==> OwnedBy(s.shared.nodes, s.shared.head, t);
    forall m | 0 <= m < |s'.shared.nodes| && s'.shared.nodes[m].isHead && s'.shared.nodes[m].linked > 0
               && !s'.shared.nodes[m].marked && m != s'.shared.head
      ensures s'.shared.nodes[m].owner.By? && s'.shared.nodes[m].owner.tid in s'.threads
      ensures s'.threads[s'.shared.nodes[m].owner.tid].pc == GrowSwapped(m)
    {
      if m != s.shared.head { assert s.threads[s.shared.nodes[m].owner.tid].pc == GrowSwapped(m); }
    }
  }

  // ----- every step

  lemma NextKeeps(s: State, t: nat, a: Action, s': State)
    requires Inv(s) && Next(s, t, a, s')
    ensures Inv(s')
  {
    hide Inv, Start, Enter, Scan, AddFound, AddReturn, AddMissing, RemoveFirst, RemoveAgain, TakeVictim, MarkVictim, TakePred, TestPred,
         Release, StoreOwn, StorePred, SetFull, StoreUnlink, GrowStart, GrowLock, GrowCopy, GrowSwap, GrowMark;
    match a
    case ToStart(op, data) => StartKeeps(s, t, s', op, data);
    case ToEnter => EnterKeeps(s, t, s');
    case ToScan => ScanKeeps(s, t, s');
    case ToAddFound => AddFoundKeeps(s, t, s');
    case ToAddReturn => AddReturnKeeps(s, t, s');
    case ToAddMissing(height) => AddMissingKeeps(s, t, s', height);
    case ToRemoveFirst => RemoveFirstKeeps(s, t, s');
    case ToRemoveAgain => RemoveAgainKeeps(s, t, s');
    case ToTakeVictim => TakeVictimKeeps(s, t, s');
    case ToMarkVictim => MarkVictimKeeps(s, t, s');
    case ToTakePred => TakePredKeeps(s, t, s');
    case ToTestPred => TestPredKeeps(s, t, s');
    case ToRelease => ReleaseKeeps(s, t, s');
    case ToStoreOwn => StoreOwnKeeps(s, t, s');
    case ToStorePred => StorePredKeeps(s, t, s');
    case ToSetFull => SetFullKeeps(s, t, s');
    case ToStoreUnlink => StoreUnlinkKeeps(s, t, s');
    case ToGrowStart(height) => GrowStartKeeps(s, t, s', height);
    case ToGrowLock => GrowLockKeeps(s, t, s');
    case ToGrowCopy => GrowCopyKeeps(s, t, s');
    case ToGrowSwap => GrowSwapKeeps(s, t, s');
    case ToGrowMark => GrowMarkKeeps(s, t, s');
  }

  lemma InitHolds(s: State)
    requires Init(s)
    ensures Inv(s)
  {
    forall t: nat, n: nat
      ensures Holds(s, t, n) <==> OwnedBy(s.shared.nodes, n, t)
    {
    }
    assert NodeOk(s.shared.nodes, 0);
  }
}
