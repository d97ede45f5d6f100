/** What the recycler promises in every run. */
module RecyclerRuns {
  import opened Recycler

  datatype Move = Move(thread: nat, action: Action)

  ghost predicate IsRun(states: seq<State>, moves: seq<Move>) {
    && |states| == |moves| + 1 && Init(states[0])
    && forall i | 0 <= i < |moves| :: Next(states[i], moves[i].thread, moves[i].action, states[i + 1])
  }

  lemma {:induction false} RunKeeps(states: seq<State>, moves: seq<Move>, i: nat)
    requires IsRun(states, moves) && i < |states|
    ensures Inv(states[i])
  {
    hide Inv, Next, Init;
    if i == 0 {
      InitHolds(states[0]);
    } else {
      RunKeeps(states, moves, i - 1);
      NextKeeps(states[i - 1], moves[i - 1].thread, moves[i - 1].action, states[i]);
    }
  }

  /** The accessor is counted in all states from the i-th to the j-th. */
  ghost predicate StaysCounted(states: seq<State>, t: nat, i: nat, j: nat) {
    && i <= j < |states|
    && forall k | i <= k <= j :: t in states[k].threads && Counted(states[k].threads[t])
  }

  lemma ReachGrows(s: State, t: nat, a: Action, s': State, u: nat)
    requires Inv(s) && Next(s, t, a, s') && u in s.threads && Counted(s.threads[u])
    requires u in s'.threads && Counted(s'.threads[u])
    ensures u in s.reach && u in s'.reach && s.reach[u] <= s'.reach[u]
  {
    hide HomesOk, LockOk, CountOk, ReachFits, Apart;
  }

  lemma {:induction false} ReachLasts(states: seq<State>, moves: seq<Move>, t: nat, i: nat, j: nat)
    requires IsRun(states, moves) && StaysCounted(states, t, i, j)
    ensures t in states[i].reach && t in states[j].reach && states[i].reach[t] <= states[j].reach[t]
  {
    hide Inv, Next, Init;
    if i == j {
      RunKeeps(states, moves, i);
      ReachKeys(states[i]);
    } else {
      ReachLasts(states, moves, t, i, j - 1);
      RunKeeps(states, moves, j - 1);
      ReachGrows(states[j - 1], moves[j - 1].thread, moves[j - 1].action, states[j], t);
    }
  }

  lemma ReachKeys(s: State)
    requires Inv(s)
    ensures s.reach.Keys == s.threads.Keys
  {
  }

  /** A node linked at any time while an accessor was there is not destroyed before the accessor leaves. */
  lemma NeverDestroyedEarly(states: seq<State>, moves: seq<Move>, t: nat, i: nat, j: nat, n: nat)
    requires IsRun(states, moves) && StaysCounted(states, t, i, j) && n in states[i].linked
    ensures n !in states[j].destroyed
  {
    hide Next, Init;
    RunKeeps(states, moves, i);
    RunKeeps(states, moves, j);
    ReachLasts(states, moves, t, i, j);
    assert ReachFits(states[i], t) && ReachFits(states[j], t);
  }

  /** No node is destroyed twice. */
  lemma DestroyedOnce(states: seq<State>, moves: seq<Move>, i: nat)
    requires IsRun(states, moves) && i < |moves| && moves[i].action.ToDestroy? && moves[i].action.mine != []
    ensures moves[i].action.mine[0] !in states[i].destroyed && moves[i].action.mine[0] !in states[i].linked
  {
    RunKeeps(states, moves, i);
    var s, n := states[i], moves[i].action.mine[0];
    assert Next(s, moves[i].thread, moves[i].action, states[i + 1]);
    assert ThreadHolds(s, moves[i].thread);
    assert n in s.home && HomeOk(s, n);
  }

  /** The node was unlinked by the i-th move or an earlier one. */
  ghost predicate UnlinkedBy(moves: seq<Move>, i: nat, n: nat) {
    i <= |moves| && exists k :: 0 <= k < i && moves[k].action == ToUnlink(n)
  }

  lemma {:induction false} HomesAreUnlinked(states: seq<State>, moves: seq<Move>, i: nat, n: nat)
    requires IsRun(states, moves) && i < |states|
    ensures n in states[i].home <==> UnlinkedBy(moves, i, n)
  {
    hide Inv, Next;
    if i > 0 {
      HomesAreUnlinked(states, moves, i - 1, n);
      RunKeeps(states, moves, i - 1);
      HomeGrows(states[i - 1], moves[i - 1].thread, moves[i - 1].action, states[i], n);
    }
  }

  lemma HomeGrows(s: State, t: nat, a: Action, s': State, n: nat)
    requires Inv(s) && Next(s, t, a, s')
    ensures n in s'.home <==> n in s.home || a == ToUnlink(n)
  {
    hide LockOk, CountOk, ReachOk, HomeOk;
    if a.ToPush? { assert ThreadHolds(s, t); }
    if a.ToDestroy? { assert ThreadHolds(s, t); }
  }

  /** An unlinked node is destroyed, or waits, or is in the hands of one accessor: none is lost. */
  lemma NoneLost(states: seq<State>, moves: seq<Move>, i: nat, n: nat)
    requires IsRun(states, moves) && i < |states| && UnlinkedBy(moves, i, n)
    ensures
      || n in states[i].destroyed
      || n in states[i].nodes
      || exists t :: t in states[i].threads && (Carries(states[i].threads[t], n) || n in Mine(states[i].threads[t]))
  {
    RunKeeps(states, moves, i);
    HomesAreUnlinked(states, moves, i, n);
    assert HomeOk(states[i], n);
  }

  /** Without accessors, and with the lock free, every unlinked node still alive is marked by dirty. */
  lemma DirtyExact(states: seq<State>, moves: seq<Move>, i: nat)
    requires IsRun(states, moves) && i < |states| && states[i].lock.Free?
    ensures states[i].dirty <==> states[i].nodes != []
  {
    RunKeeps(states, moves, i);
  }

  /** The count is that of the accessors between addRef and the decrement; it is positive whenever a node is added. */
  lemma RefsExact(states: seq<State>, moves: seq<Move>, i: nat)
    requires IsRun(states, moves) && i < |states|
    ensures states[i].refs == |CountedSet(states[i].threads)|
    ensures forall t | t in states[i].threads && states[i].threads[t].Pushing? :: states[i].refs > 0
  {
    RunKeeps(states, moves, i);
    forall t | t in states[i].threads && states[i].threads[t].Pushing?
      ensures states[i].refs > 0
    {
      assert t in CountedSet(states[i].threads);
    }
  }

  // ----- waiting

  ghost predicate CanStep(s: State, t: nat) {
    exists a: Action, s': State :: Next(s, t, a, s')
  }

  /** An accessor that needs the lock while somebody has it. */
  predicate AwaitsLock(s: State, t: nat) {
    t in s.threads && (s.threads[t].Adding? || s.threads[t].SlowRelease?) && s.lock.HeldBy?
  }

  lemma AddStep(s: State, t: nat)
    requires t in s.threads && t in s.reach
    requires var pc := s.threads[t]; pc.Out? || pc.Live? || pc.Adding? || pc.Pushing? || pc.Dirtying? || pc.Added?
    ensures CanStep(s, t) || AwaitsLock(s, t)
  {
    match s.threads[t]
    case Out => assert Next(s, t, ToAddRef, WithPc(s, t, Live).(refs := s.refs + 1, reach := s.reach[t := s.linked]));
    case Live => assert Next(s, t, ToStartRelease, WithPc(s, t, ReadDirty));
    case Adding(n) => if s.lock.Free? { assert Next(s, t, ToAddLock(n), WithPc(s, t, Pushing(n)).(lock := HeldBy(t))); }
    case Pushing(n) =>
      assert Next(s, t, ToPush(n), WithPc(s, t, Dirtying).(nodes := s.nodes + [n], home := s.home[n := Waiting]));
    case Dirtying => assert Next(s, t, ToSetDirty, WithPc(s, t, Added).(dirty := true));
    case Added => assert Next(s, t, ToAddUnlock, WithPc(s, t, Live).(lock := Free));
  }

  lemma ReleaseStep(s: State, t: nat)
    requires t in s.threads && t in s.reach
    requires var pc := s.threads[t]; pc.ReadDirty? || pc.ReadRefs? || pc.FastRelease? || pc.SlowRelease? || pc.Releasing?
    ensures CanStep(s, t) || AwaitsLock(s, t)
  {
    match s.threads[t]
    case ReadDirty => assert Next(s, t, ToLoadDirty, WithPc(s, t, if s.dirty then ReadRefs else FastRelease));
    case ReadRefs => assert Next(s, t, ToLoadRefs, WithPc(s, t, if s.refs > 1 then FastRelease else SlowRelease));
    case FastRelease =>
      assert Next(s, t, ToFastDecrement, WithPc(s, t, Out).(refs := s.refs - 1, reach := s.reach[t := {}]));
    case SlowRelease => if s.lock.Free? { assert Next(s, t, ToReleaseLock, WithPc(s, t, Releasing).(lock := HeldBy(t))); }
    case Releasing =>
      assert Next(s, t, ToSlowDecrement,
                  WithPc(s, t, if s.refs == 1 then Swapping else Unlocking([])).(refs := s.refs - 1, reach := s.reach[t := {}]));
  }

  lemma CleanStep(s: State, t: nat)
    requires t in s.threads && t in s.reach
    requires var pc := s.threads[t]; pc.Swapping? || pc.Cleaning? || pc.Unlocking? || pc.Destroying?
    ensures CanStep(s, t)
  {
    match s.threads[t]
    case Swapping =>
      var home := map n | n in s.home :: if s.home[n] == Waiting then TakenBy(t) else s.home[n];
      assert Next(s, t, ToSwap, WithPc(s, t, Cleaning(s.nodes)).(nodes := [], home := home));
    case Cleaning(mine) => assert Next(s, t, ToClearDirty(mine), WithPc(s, t, Unlocking(mine)).(dirty := false));
    case Unlocking(mine) => assert Next(s, t, ToReleaseUnlock(mine), WithPc(s, t, Destroying(mine)).(lock := Free));
    case Destroying(mine) =>
      assert Next(s, t, ToDestroy(mine),
                  if mine == [] then WithPc(s, t, Out)
                  else WithPc(s, t, Destroying(mine[1..])).(destroyed := s.destroyed + {mine[0]}, home := s.home[mine[0] := Gone]));
  }

  lemma OnlyTheLock(s: State, t: nat)
    requires t in s.threads && t in s.reach
    ensures CanStep(s, t) || AwaitsLock(s, t)
  {
    hide CanStep;
    var pc := s.threads[t];
    if pc.Out? || pc.Live? || pc.Adding? || pc.Pushing? || pc.Dirtying? || pc.Added? {
      AddStep(s, t);
    } else if pc.ReadDirty? || pc.ReadRefs? || pc.FastRelease? || pc.SlowRelease? || pc.Releasing? {
      ReleaseStep(s, t);
    } else {
      CleanStep(s, t);
    }
  }

  /** Nothing but the lock stops an accessor, and whoever has the lock can go on. */
  lemma NobodyIsStuck(states: seq<State>, moves: seq<Move>, i: nat, t: nat)
    requires IsRun(states, moves) && i < |states| && t in states[i].threads
    ensures
      var s := states[i];
      CanStep(s, t) || (AwaitsLock(s, t) && s.lock.thread in s.threads && CanStep(s, s.lock.thread))
  {
    hide IsRun, Next, CanStep, CountOk, HomesOk, Apart;
    RunKeeps(states, moves, i);
    var s := states[i];
    OnlyTheLock(s, t);
    if AwaitsLock(s, t) { OnlyTheLock(s, s.lock.thread); }
  }

  // ----- the last one to leave

  /** No other accessor is counted. */
  ghost predicate Alone(s: State, t: nat) {
    forall u | u in s.threads && u != t :: !Counted(s.threads[u])
  }

  /** The node waits while t still has to take the waiting nodes; then t has it to destroy, or it is destroyed. */
  predicate OnItsWay(s: State, pc: Pc, n: nat) {
    match pc
    case ReadDirty => n in s.nodes && s.lock.Free?
    case ReadRefs => n in s.nodes && s.lock.Free?
    case SlowRelease => n in s.nodes && s.lock.Free?
    case Releasing => n in s.nodes
    case Swapping => n in s.nodes
    case Cleaning(mine) => n in mine || n in s.destroyed
    case Unlocking(mine) => n in mine || n in s.destroyed
    case Destroying(mine) => n in mine || n in s.destroyed
    case Out => n in s.destroyed
    case _ => false
  }

  lemma OnlyRef(s: State, t: nat)
    requires CountOk(s) && t in s.threads && Counted(s.threads[t]) && Alone(s, t)
    ensures s.refs == 1
  {
    assert CountedSet(s.threads) == {t};
  }

  lemma OwnStep(s: State, t: nat, a: Action, s': State, n: nat)
    requires LockOk(s) && Next(s, t, a, s') && t in s.threads && s.threads[t] != Out && OnItsWay(s, s.threads[t], n)
    requires Counted(s.threads[t]) ==> s.refs == 1
    ensures t in s'.threads && OnItsWay(s', s'.threads[t], n)
    ensures Counted(s'.threads[t]) ==> Counted(s.threads[t])
  {
    hide LockOk, Next, OnItsWay;
    if Counted(s.threads[t]) {
      if s.lock.Free? && n in s.nodes { DirtyNow(s, n); }
      CountedStep(s, t, a, s', n);
    } else {
      CleaningStep(s, t, a, s', n);
    }
  }

  lemma DirtyNow(s: State, n: nat)
    requires LockOk(s) && s.lock.Free? && n in s.nodes
    ensures s.dirty
  {
  }

  lemma CountedStep(s: State, t: nat, a: Action, s': State, n: nat)
    requires Next(s, t, a, s') && t in s.threads && OnItsWay(s, s.threads[t], n)
    requires Counted(s.threads[t]) && s.refs == 1 && (s.lock.Free? && n in s.nodes ==> s.dirty)
    ensures t in s'.threads && OnItsWay(s', s'.threads[t], n)
  {
  }

  lemma CleaningStep(s: State, t: nat, a: Action, s': State, n: nat)
    requires Next(s, t, a, s') && t in s.threads && OnItsWay(s, s.threads[t], n)
    requires !Counted(s.threads[t]) && s.threads[t] != Out
    ensures t in s'.threads && OnItsWay(s', s'.threads[t], n) && !Counted(s'.threads[t])
  {
  }

  lemma OthersStep(s: State, u: nat, a: Action, s': State, t: nat, n: nat)
    requires LockOk(s) && Next(s, u, a, s') && t in s.threads && t != u && OnItsWay(s, s.threads[t], n)
    requires Counted(s.threads[t]) ==> Alone(s, t) && Alone(s', t)
    ensures t in s'.threads && s'.threads[t] == s.threads[t] && OnItsWay(s', s.threads[t], n)
  {
    assert u in s.threads && (HoldsLock(s.threads[u]) <==> s.lock == HeldBy(u));
    assert HoldsLock(s.threads[t]) <==> s.lock == HeldBy(t);
  }

  lemma Sound(s: State)
    requires Inv(s)
    ensures LockOk(s) && CountOk(s)
  {
  }

  /** t is not out behind a, and out again in the b-th state. */
  ghost predicate IsExit(states: seq<State>, moves: seq<Move>, t: nat, a: nat, b: nat) {
    && IsRun(states, moves) && a < b < |states|
    && (forall i | a < i < b :: t in states[i].threads && states[i].threads[t] != Out)
    && t in states[b].threads && states[b].threads[t] == Out
  }

  ghost predicate AloneWhileCounted(states: seq<State>, t: nat, a: nat, b: nat) {
    forall i | a < i < b && i < |states| && t in states[i].threads && Counted(states[i].threads[t]) :: Alone(states[i], t)
  }

  lemma {:induction false} CleansUp(states: seq<State>, moves: seq<Move>, t: nat, a: nat, b: nat, j: nat, n: nat)
    requires IsExit(states, moves, t, a, b) && a < j <= b
    requires t in states[a + 1].threads && OnItsWay(states[a + 1], states[a + 1].threads[t], n)
    requires Counted(states[a + 1].threads[t]) ==> AloneWhileCounted(states, t, a, b)
    ensures t in states[j].threads && OnItsWay(states[j], states[j].threads[t], n)
    ensures Counted(states[j].threads[t]) ==> Counted(states[a + 1].threads[t])
  {
    hide Inv, Init, Next, OnItsWay, Alone;
    if j > a + 1 {
      var i := j - 1;
      var s := states[i];
      CleansUp(states, moves, t, a, b, i, n);
      RunKeeps(states, moves, i);
      Sound(s);
      if moves[i].thread == t {
        if Counted(s.threads[t]) { OnlyRef(s, t); }
        OwnStep(s, t, moves[i].action, states[j], n);
      } else {
        OthersLeave(s, moves[i].thread, moves[i].action, states[j], t);
        OthersStep(s, moves[i].thread, moves[i].action, states[j], t, n);
      }
    }
  }

  lemma OthersLeave(s: State, u: nat, a: Action, s': State, t: nat)
    requires Next(s, u, a, s') && t in s.threads && t != u
    ensures t in s'.threads && s'.threads[t] == s.threads[t]
  {
  }

  lemma LastDecrement(s: State, t: nat, s': State, n: nat)
    requires Next(s, t, ToSlowDecrement, s') && s.refs == 1 && n in s.nodes
    ensures t in s'.threads && OnItsWay(s', s'.threads[t], n) && !Counted(s'.threads[t])
  {
  }

  lemma BeginsRelease(s: State, t: nat, s': State, n: nat)
    requires Next(s, t, ToStartRelease, s') && s.lock.Free? && n in s.nodes
    ensures t in s'.threads && OnItsWay(s', s'.threads[t], n)
  {
  }

  /** Whoever takes the count from one to zero under the lock destroys every node that waited, before it is out. */
  lemma LastOneDestroysAll(states: seq<State>, moves: seq<Move>, t: nat, a: nat, b: nat, n: nat)
    requires IsExit(states, moves, t, a, b) && moves[a] == Move(t, ToSlowDecrement) && states[a].refs == 1
    requires n in states[a].nodes
    ensures n in states[b].destroyed
  {
    hide Inv, Init, Next, OnItsWay, Alone, Counted;
    LastDecrement(states[a], t, states[a + 1], n);
    CleansUp(states, moves, t, a, b, b, n);
    OutIsDestroyed(states[b], n);
  }

  lemma OutIsDestroyed(s: State, n: nat)
    requires OnItsWay(s, Out, n)
    ensures n in s.destroyed
  {
  }

  /** An accessor that releases while it is the only one, and the lock is free, destroys every node that waited. */
  lemma OnlyOneDestroysAll(states: seq<State>, moves: seq<Move>, t: nat, a: nat, b: nat, n: nat)
    requires IsExit(states, moves, t, a, b) && AloneWhileCounted(states, t, a, b) && moves[a] == Move(t, ToStartRelease)
    requires states[a].lock.Free? && n in states[a].nodes
    ensures n in states[b].destroyed
  {
    hide Inv, Init, Next, OnItsWay, Alone, Counted;
    BeginsRelease(states[a], t, states[a + 1], n);
    CleansUp(states, moves, t, a, b, b, n);
    OutIsDestroyed(states[b], n);
  }
}
