/** What a thread of the hash map may have to wait for, and that it is always for somebody who can go on. */
module HashMapProgress {
  import opened HashMapState
  import opened HashMapProofs
  import opened HashMapRuns

  // ----- what a thread can wait for

  ghost predicate CanStep(s: State, t: nat) {
    exists a: Action, s': State :: Next(s, t, a, s')
  }

  /** Its array is full, and other inserts are still pending in it: reading that once more does not get the insert on. */
  predicate Spins(s: State, pc: Pc) {
    && (pc.SpinFull? || pc.SpinPending?) && HasMap(s, pc.job.sub)
    && s.slots[pc.job.sub].sub.isFull != NO_PENDING_INSERTS && s.slots[pc.job.sub].sub.pending != 0
  }

  /** The three waits of an insert: for a locked cell, for the pending inserts of a full array, for an array being added. */
  predicate Waits(s: State, pc: Pc) {
    || (pc.Wait? && JobFits(s, pc.job) && CellOf(s, pc.job) == Locked)
    || Spins(s, pc)
    || (pc.Await? && s.published <= pc.next)
  }

  /** Nothing else stops a thread, in any state of any run. */
  lemma OnlyThreeWaits(states: seq<State>, moves: seq<Move>, n: nat, t: nat)
    requires IsRun(states, moves) && n < |states| && t in states[n].threads
    ensures Waits(states[n], states[n].threads[t]) || CanStep(states[n], t)
  {
    hide Init, CanStep, ThreadOk, SlotsOk, CountsOk, WritersOk, BuilderOk;
    RunKeeps(states, moves, n);
    var s, pc := states[n], states[n].threads[t];
    assert ThreadOk(s, pc);
    ReadyForStep(s, t);
    if pc.Look? || pc.Recheck? || pc.TryLock? || pc.Write? || pc.Wait? || pc.Compare? {
      CellStep(s, t);
    } else if Inserting(pc) {
      CountStep(s, t);
    } else if pc.Claim? || pc.Build? || pc.Publish? || pc.Await? || pc.Again? {
      GrowStep(s, t);
    } else if pc.Idle? || pc.EraseLook? || pc.EraseSwap? || pc.EraseCount? {
      EraseStep(s, t);
    } else {
      LateStep(s, t);
    }
  }

  /** The array a thread works on is there, its cell in range, and a thread that is counted finds the count positive. */
  ghost predicate Ready(s: State, pc: Pc) {
    && (Inserting(pc) || pc.EraseLook? || pc.EraseSwap? ==> JobFits(s, pc.job))
    && (pc.ThrowDrop? ==> HasMap(s, pc.job.sub))
    && (pc.Landed? || pc.Count? || pc.MarkFull? || pc.EraseCount? ==> JobFits(s, pc.job))
    && (pc.Leave? || pc.Drop? || pc.ThrowDrop? || pc.Landed? ==>
          HasMap(s, pc.job.sub) && s.slots[pc.job.sub].sub.pending > 0)
  }

  lemma ReadyForStep(s: State, t: nat)
    requires CountsOk(s) && t in s.threads && ThreadOk(s, s.threads[t])
    ensures Ready(s, s.threads[t])
  {
    var pc := s.threads[t];
    if pc.Leave? || pc.Drop? || pc.ThrowDrop? || pc.Landed? { PendingPositive(s, t, pc.job.sub); }
  }

  lemma CellStep(s: State, t: nat)
    requires t in s.threads && Ready(s, s.threads[t])
    requires var pc := s.threads[t]; pc.Look? || pc.Recheck? || pc.TryLock? || pc.Write? || pc.Wait? || pc.Compare?
    ensures Waits(s, s.threads[t]) || CanStep(s, t)
  {
    hide ProbeAt;
    var pc := s.threads[t];
    var job := pc.job;
    var m := s.slots[job.sub].sub;
    match pc
    case Look(_) => assert Next(s, t, ToLook, WithPc(s, t, if CellOf(s, job) == Empty then Announce(job) else Wait(job)));
    case Recheck(_) =>
      assert Next(s, t, ToRecheck, WithPc(s, t, if CellOf(s, job) == Empty then AfterFull(job) else Wait(job)));
    case TryLock(_) =>
      assert Next(s, t, ToTryLock, if CellOf(s, job) == Empty then WithPc(WithCell(s, job, Locked), t, Write(job))
                                   else WithPc(s, t, Drop(job)));
    case Write(_) => assert Next(s, t, ToWrite, WithPc(WithCell(s, job, Holds(job.key)), t, Landed(job)));
    case Wait(_) => if CellOf(s, job) != Locked { assert Next(s, t, ToWait, WithPc(s, t, Compare(job))); }
    case Compare(_) =>
      var cell := CellOf(s, job);
      var next := if cell == Holds(job.key) then Idle(Got(job.sub, CellIdx(s, job), false))
                  else if cell == Empty || cell == Locked then Look(job)
                  else if job.n + 1 >= |m.cells| then AfterFull(job)
                  else Look(job.(n := job.n + 1));
      assert Next(s, t, ToCompare, WithPc(s, t, next));
  }

  lemma CountStep(s: State, t: nat)
    requires t in s.threads && Ready(s, s.threads[t])
    requires
      var pc := s.threads[t];
      pc.Announce? || pc.TestFull? || pc.Leave? || pc.Drop? || pc.SpinFull? || pc.SpinPending? || pc.StoreFull?
    ensures CanStep(s, t)
  {
    var pc := s.threads[t];
    var job := pc.job;
    var m := s.slots[job.sub].sub;
    match pc
    case Announce(_) =>
      assert Next(s, t, ToAnnounce, WithPc(WithMap(s, job.sub, m.(pending := m.pending + 1)), t, TestFull(job)));
    case TestFull(_) => assert Next(s, t, ToTestFull, WithPc(s, t, if m.isFull != OPEN then Leave(job) else TryLock(job)));
    case Leave(_) =>
      assert Next(s, t, ToUnannounce, WithPc(WithMap(s, job.sub, m.(pending := m.pending - 1)), t, SpinFull(job)));
    case Drop(_) =>
      assert Next(s, t, ToUnannounce, WithPc(WithMap(s, job.sub, m.(pending := m.pending - 1)), t, Wait(job)));
    case SpinFull(_) =>
      assert Next(s, t, ToSpinFull, WithPc(s, t, if m.isFull == NO_PENDING_INSERTS then StoreFull(job) else SpinPending(job)));
    case SpinPending(_) =>
      assert Next(s, t, ToSpinPending, if m.pending == 0 then WithPc(WithMap(s, job.sub, m.(shut := true)), t, StoreFull(job))
                                       else WithPc(s, t, SpinFull(job)));
    case StoreFull(_) =>
      assert Next(s, t, ToStoreFull, WithPc(WithMap(s, job.sub, m.(isFull := NO_PENDING_INSERTS)), t, Recheck(job)));
  }

  lemma PendingPositive(s: State, t: nat, i: nat)
    requires CountsOk(s) && HasMap(s, i) && t in s.threads && Counted(s.threads[t], i)
    ensures s.slots[i].sub.pending > 0
  {
    assert t in Pending(s.threads, i);
  }

  lemma GrowStep(s: State, t: nat)
    requires Inv(s) && t in s.threads && ThreadOk(s, s.threads[t])
    requires var pc := s.threads[t]; pc.Claim? || pc.Build? || pc.Publish? || pc.Await? || pc.Again?
    ensures Waits(s, s.threads[t]) || CanStep(s, t)
  {
    hide WritersOk, CountsOk, SlotsOk, ThreadOk;
    match s.threads[t]
    case Claim(key, next) =>
      var s' := if next >= NUM_SUB_MAPS || next >= |s.slots| || !s.setup.canGrow then WithPc(s, t, Idle(Full))
                else if s.slots[next] == Null then WithPc(s.(slots := s.slots[next := Claimed]), t, Build(key, next))
                else WithPc(s, t, Await(key, next));
      assert Next(s, t, ToClaim, s');
    case Build(key, next) => assert Next(s, t, ToBuild(1), WithPc(WithMap(s, next, EmptyMap(1)), t, Publish(key, next)));
    case Publish(key, next) =>
      assert Next(s, t, ToPublish, WithPc(s.(published := s.published + 1), t, Look(Job(key, next, next, 0))));
    case Again(key) => assert Next(s, t, ToAgain, WithPc(s, t, Look(Job(key, 0, s.published, 0))));
    case Await(key, next) =>
      if next < s.published { assert Next(s, t, ToAwait, WithPc(s, t, Look(Job(key, next, next, 0)))); }
  }

  lemma LateStep(s: State, t: nat)
    requires t in s.threads && Ready(s, s.threads[t])
    requires var pc := s.threads[t]; pc.ThrowDrop? || pc.Landed? || pc.Count? || pc.MarkFull?
    ensures CanStep(s, t)
  {
    var job := s.threads[t].job;
    var m := s.slots[job.sub].sub;
    match s.threads[t]
    case ThrowDrop(_) =>
      assert Next(s, t, ToUnannounce, WithPc(WithMap(s, job.sub, m.(pending := m.pending - 1)), t, Idle(Threw)));
    case Landed(_) =>
      assert Next(s, t, ToUnannounce, WithPc(WithMap(s, job.sub, m.(pending := m.pending - 1)), t, Count(job)));
    case Count(_) =>
      assert Next(s, t, ToCount, WithPc(WithMap(s, job.sub, m.(numEntries := m.numEntries + 1)), t, MarkFull(job)));
    case MarkFull(_) => assert Next(s, t, ToMarkFull(false), WithPc(s, t, Idle(Got(job.sub, CellIdx(s, job), true))));
  }

  lemma EraseStep(s: State, t: nat)
    requires t in s.threads && Ready(s, s.threads[t])
    requires var pc := s.threads[t]; pc.Idle? || pc.EraseLook? || pc.EraseSwap? || pc.EraseCount?
    ensures CanStep(s, t)
  {
    hide ProbeAt;
    match s.threads[t]
    case Idle(_) => assert Next(s, t, ToStart(0), WithPc(s, t, Look(Job(0, 0, s.published, 0))));
    case EraseLook(job) =>
      var cell := CellOf(s, job);
      var next := if cell == Empty || cell == Locked then AfterMiss(job)
                  else if cell == Holds(job.key) then EraseSwap(job)
                  else if job.n + 1 >= |s.slots[job.sub].sub.cells| then AfterMiss(job)
                  else EraseLook(job.(n := job.n + 1));
      assert Next(s, t, ToEraseLook, WithPc(s, t, next));
    case EraseSwap(job) =>
      assert Next(s, t, ToEraseSwap, if CellOf(s, job) == Holds(job.key) then WithPc(WithCell(s, job, Erased), t, EraseCount(job))
                                     else WithPc(s, t, AfterMiss(job)));
    case EraseCount(job) =>
      var m := s.slots[job.sub].sub;
      assert Next(s, t, ToEraseCount, WithPc(WithMap(s, job.sub, m.(numErases := m.numErases + 1)), t, Idle(EraseDone(true))));
  }

  // ----- whom a thread waits for

  /** Somebody has a locked cell locked, and is about to write or to give it back. */
  ghost predicate LockedByWriter(s: State, i: nat, c: nat) {
    HasMap(s, i) && c < |s.slots[i].sub.cells| && s.slots[i].sub.cells[c] == Locked ==> exists u: nat :: WritesAt(s, u, i, c)
  }

  ghost predicate LocksAttended(s: State) {
    forall i: nat, c: nat :: LockedByWriter(s, i, c)
  }

  ghost predicate BeingBuilt(s: State) {
    exists u: nat :: u in s.threads && Building(s.threads[u])
  }

  /** The slot behind the published arrays is only taken while somebody builds there, and whoever awaits it found it taken. */
  ghost predicate SlotAttended(s: State) {
    && (s.published < |s.slots| && s.slots[s.published] != Null ==> BeingBuilt(s))
    && (forall t | t in s.threads && s.threads[t].Await? :: s.threads[t].next < |s.slots| && s.slots[s.threads[t].next] != Null)
  }

  lemma Actor(s: State, t: nat, a: Action, s': State)
    requires Next(s, t, a, s')
    ensures t in s.threads && t in s'.threads && s'.threads == s.threads[t := s'.threads[t]]
  {
    hide ProbeAt;
  }

  /** A cell that is locked after a step was so before, and not by the actor, or has been locked by the actor just now. */
  lemma CellsLocked(s: State, t: nat, a: Action, s': State, i: nat, c: nat)
    requires Next(s, t, a, s') && HasMap(s', i) && c < |s'.slots[i].sub.cells| && s'.slots[i].sub.cells[c] == Locked
    ensures
      || (HasMap(s, i) && c < |s.slots[i].sub.cells| && s.slots[i].sub.cells[c] == Locked && !WritesAt(s, t, i, c))
      || WritesAt(s', t, i, c)
  {
    hide ProbeAt;
  }

  lemma StillWrites(s: State, s': State, u: nat, i: nat, c: nat)
    requires AllEvolve(s, s') && WritesAt(s, u, i, c) && u in s'.threads && s'.threads[u] == s.threads[u]
    ensures WritesAt(s', u, i, c)
  {
    hide ProbeAt;
  }

  lemma NextLocks(s: State, t: nat, a: Action, s': State, i: nat, c: nat)
    requires Inv(s) && LockedByWriter(s, i, c) && Next(s, t, a, s')
    ensures LockedByWriter(s', i, c)
  {
    hide Inv, Next, AllEvolve, WritesAt;
    NextKeeps(s, t, a, s');
    Actor(s, t, a, s');
    if HasMap(s', i) && c < |s'.slots[i].sub.cells| && s'.slots[i].sub.cells[c] == Locked {
      CellsLocked(s, t, a, s', i, c);
      if !WritesAt(s', t, i, c) {
        var u: nat :| WritesAt(s, u, i, c);
        Writer(s, u, i, c);
        StillWrites(s, s', u, i, c);
      }
    }
  }

  lemma Writer(s: State, u: nat, i: nat, c: nat)
    requires WritesAt(s, u, i, c)
    ensures u in s.threads
  {
  }

  /** Slots are taken by builders only and never freed. */
  lemma SlotsTaken(s: State, t: nat, a: Action, s': State)
    requires Next(s, t, a, s') && t in s'.threads
    ensures |s'.slots| == |s.slots|
    ensures forall i | 0 <= i < |s.slots| && s.slots[i] != Null :: s'.slots[i] != Null
    ensures forall i | 0 <= i < |s.slots| && s.slots[i] == Null && s'.slots[i] != Null :: Building(s'.threads[t])
  {
    hide ProbeAt, NextPowTwo;
  }

  /** Builders stop by publishing, and only taken slots are awaited. */
  lemma BuildersPublish(s: State, t: nat, a: Action, s': State)
    requires Next(s, t, a, s') && t in s.threads && t in s'.threads
    ensures s'.published == s.published || (a.ToPublish? && s'.published == s.published + 1)
    ensures Building(s.threads[t]) ==> Building(s'.threads[t]) || s'.published == s.published + 1
    ensures a.ToPublish? ==> !Building(s'.threads[t])
    ensures s'.threads[t].Await? ==> s'.threads[t].next < |s.slots| && s.slots[s'.threads[t].next] != Null
  {
    hide ProbeAt, NextPowTwo;
  }

  lemma NextSlots(s: State, t: nat, a: Action, s': State)
    requires SlotsOk(s) && SlotAttended(s) && Next(s, t, a, s')
    ensures SlotAttended(s')
  {
    hide Next, Building, HasMap;
    Actor(s, t, a, s');
    SlotsTaken(s, t, a, s');
    BuildersPublish(s, t, a, s');
    if s'.published == s.published && s.published < |s.slots| && s.slots[s.published] != Null {
      var u: nat :| u in s.threads && Building(s.threads[u]);
      assert u in s'.threads && Building(s'.threads[u]);
    }
  }

  lemma Slots(s: State)
    requires Inv(s)
    ensures SlotsOk(s)
  {
  }

  lemma Known(s: State, t: nat)
    requires Inv(s)
    ensures t in s.threads ==> ThreadOk(s, s.threads[t])
  {
  }

  lemma {:induction false} RunAttended(states: seq<State>, moves: seq<Move>, i: nat)
    requires IsRun(states, moves) && i < |states|
    ensures LocksAttended(states[i]) && SlotAttended(states[i])
  {
    hide Inv, Next, SlotsOk, SlotAttended, LockedByWriter;
    if i == 0 {
      StartAttended(states[0]);
    } else {
      RunKeeps(states, moves, i - 1);
      RunAttended(states, moves, i - 1);
      var s, s' := states[i - 1], states[i];
      forall j: nat, c: nat
        ensures LockedByWriter(s', j, c)
      {
        NextLocks(s, moves[i - 1].thread, moves[i - 1].action, s', j, c);
      }
      Slots(s);
      NextSlots(s, moves[i - 1].thread, moves[i - 1].action, s');
    }
  }

  lemma StartAttended(s: State)
    requires Init(s)
    ensures LocksAttended(s) && SlotAttended(s)
  {
  }

  ghost predicate CanGoOn(s: State, t: nat) {
    t in s.threads && !Waits(s, s.threads[t]) && CanStep(s, t)
  }

  /** u has the cell locked, is pending in the full array, or is adding the array that t waits for. */
  predicate Delays(s: State, t: nat, u: nat) {
    && t in s.threads && u in s.threads
    && var pc := s.threads[t];
       || (pc.Wait? && JobFits(s, pc.job) && WritesAt(s, u, pc.job.sub, CellIdx(s, pc.job)))
       || (Spins(s, pc) && Counted(s.threads[u], pc.job.sub))
       || (pc.Await? && Building(s.threads[u]))
  }

  lemma SomebodyPending(s: State, i: nat) returns (u: nat)
    requires CountsOk(s) && HasMap(s, i) && s.slots[i].sub.pending != 0
    ensures u in s.threads && Counted(s.threads[u], i)
  {
    assert Pending(s.threads, i) != {};
    u :| u in Pending(s.threads, i);
  }

  lemma WaitedFor(s: State, t: nat) returns (u: nat)
    requires Inv(s) && LocksAttended(s) && SlotAttended(s) && t in s.threads && Waits(s, s.threads[t])
    ensures Delays(s, t, u) && !Waits(s, s.threads[u])
  {
    hide CountsOk, ThreadsOk, WritersOk, KeysOk, ProbeAt;
    Known(s, t);
    var pc := s.threads[t];
    if pc.Wait? {
      assert LockedByWriter(s, pc.job.sub, CellIdx(s, pc.job));
      u :| WritesAt(s, u, pc.job.sub, CellIdx(s, pc.job));
    } else if pc.Await? {
      assert BeingBuilt(s);
      u :| u in s.threads && Building(s.threads[u]);
    } else {
      u := SomebodyPending(s, pc.job.sub);
    }
  }

  /** In every state of every run, every thread can go on, or waits for one that can. */
  lemma NobodyIsStuck(states: seq<State>, moves: seq<Move>, n: nat, t: nat) returns (u: nat)
    requires IsRun(states, moves) && n < |states| && t in states[n].threads
    ensures CanGoOn(states[n], u) && (u == t || Delays(states[n], t, u))
  {
    hide Inv, IsRun, Waits, CanStep, LocksAttended, SlotAttended;
    u := t;
    if Waits(states[n], states[n].threads[t]) {
      RunKeeps(states, moves, n);
      RunAttended(states, moves, n);
      u := WaitedFor(states[n], t);
    }
    OnlyThreeWaits(states, moves, n, u);
  }
}
