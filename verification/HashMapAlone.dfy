/** A call that runs while all other threads rest comes to its end, within a number of steps known when it is left alone. */
module HashMapAlone {
  import opened HashMapState
  import opened HashMapProofs
  import opened HashMapRuns
  import opened HashMapLookup
  import opened HashMapProgress
  import opened HashMapCalls

  // ----- how far a call is from its end

  function Cells(s: State, i: nat): nat {
    if i < |s.slots| && s.slots[i].Built? then |s.slots[i].sub.cells| else 0
  }

  /** More than the steps in one array. */
  function InArray(s: State, i: nat): nat {
    16 * Cells(s, i) + 16
  }

  /** The same for the arrays from lo up to hi. */
  function InArrays(s: State, lo: nat, hi: nat): nat
    decreases hi - lo
  {
    if lo >= hi then 0 else InArray(s, lo) + InArrays(s, lo + 1, hi)
  }

  /** For another round over all arrays, and a new one. */
  function ForRound(s: State): nat {
    InArrays(s, 0, s.published) + 13
  }

  /** For adding the array behind the next ones, or for trying it if another thread has added it. */
  function ForNext(s: State, next: nat): nat {
    if next < s.published then InArray(s, next) + ForRound(s) + 2 else 13
  }

  /** Once an array has turned out to be full. */
  function AfterArray(s: State, job: Job): nat {
    if job.sub < job.limit then InArrays(s, job.sub + 1, job.limit) + ForNext(s, job.limit) else ForRound(s)
  }

  /** From a cell of the array on. */
  function FromCell(s: State, job: Job): int {
    16 * (Cells(s, job.sub) - job.n) + AfterArray(s, job)
  }

  /** The cell is empty and the array is open: a thread that is alone inserts there. */
  predicate Free(s: State, job: Job) {
    JobFits(s, job) && CellOf(s, job) == Empty && s.slots[job.sub].sub.isFull == OPEN
  }

  predicate Taken(s: State, job: Job) {
    JobFits(s, job) && CellOf(s, job) != Empty && CellOf(s, job) != Locked
  }

  function FromErase(s: State, job: Job): int {
    16 * (Cells(s, job.sub) - job.n) + InArrays(s, job.sub + 1, job.limit)
  }

  /** The most steps that the call still takes when it is left alone. */
  function StepsLeft(s: State, pc: Pc): int {
    match pc
    case Idle(_) => 0
    case Look(job) => if Free(s, job) then 10 else FromCell(s, job) + 15
    case Announce(job) => if Free(s, job) then 9 else FromCell(s, job) + 14
    case TestFull(job) => if Free(s, job) then 8 else FromCell(s, job) + 13
    case TryLock(job) => if Free(s, job) then 7 else FromCell(s, job) + 12
    case Leave(job) => FromCell(s, job) + 12
    case SpinFull(job) => FromCell(s, job) + 11
    case SpinPending(job) => FromCell(s, job) + 10
    case StoreFull(job) => FromCell(s, job) + 9
    case Recheck(job) => FromCell(s, job) + 8
    case Drop(job) => FromCell(s, job) + if Taken(s, job) then 3 else 18
    case Wait(job) => FromCell(s, job) + if Taken(s, job) then 2 else 17
    case Compare(job) => FromCell(s, job) + if Taken(s, job) then 1 else 16
    case Write(_) => 6
    case ThrowDrop(_) => 1
    case Landed(_) => 5
    case Count(_) => 4
    case MarkFull(_) => 3
    case Again(_) => ForRound(s)
    case Claim(_, next) => ForNext(s, next)
    case Build(_, _) => 12
    case Publish(_, _) => 11
    case Await(_, next) => ForNext(s, next) - 1
    case EraseLook(job) => FromErase(s, job) + 3
    case EraseSwap(job) => FromErase(s, job) + 2
    case EraseCount(_) => 1
  }

  // ----- what does not change

  lemma {:induction false} ArraysStay(s: State, s': State, lo: nat, hi: nat)
    requires AllEvolve(s, s') && SlotsOk(s) && hi <= s.published
    ensures InArrays(s', lo, hi) == InArrays(s, lo, hi)
    decreases hi - lo
  {
    hide SlotsOk, AllEvolve;
    if lo < hi {
      CellsStay(s, s', lo);
      ArraysStay(s, s', lo + 1, hi);
    }
  }

  lemma CellsStay(s: State, s': State, i: nat)
    requires AllEvolve(s, s') && SlotsOk(s) && i < s.published
    ensures Cells(s', i) == Cells(s, i)
  {
    hide KeysOk;
    assert HasMap(s, i);
  }

  lemma NextStays(s: State, s': State, next: nat)
    requires AllEvolve(s, s') && SlotsOk(s) && s'.published == s.published
    ensures ForRound(s') == ForRound(s) && ForNext(s', next) == ForNext(s, next)
  {
    hide SlotsOk, AllEvolve;
    ArraysStay(s, s', 0, s.published);
    if next < s.published { CellsStay(s, s', next); }
  }

  lemma CellStays(s: State, s': State, job: Job)
    requires AllEvolve(s, s') && SlotsOk(s) && s'.published == s.published && job.sub < s.published && job.limit <= s.published
    ensures FromCell(s', job) == FromCell(s, job) && FromErase(s', job) == FromErase(s, job)
  {
    hide SlotsOk, AllEvolve;
    CellsStay(s, s', job.sub);
    ArraysStay(s, s', job.sub + 1, job.limit);
    NextStays(s, s', job.limit);
  }

  // ----- going on to what comes next

  /** What comes after a full array costs no more than was set aside for it. */
  lemma AfterFullLess(s: State, job: Job)
    requires JobFits(s, job) && job.sub <= job.limit <= s.published
    ensures StepsLeft(s, AfterFull(job)) <= AfterArray(s, job) < FromCell(s, job)
  {
  }

  lemma RoundLess(s: State, key: int)
    requires 1 <= s.published
    ensures StepsLeft(s, Look(Job(key, 0, s.published, 0))) < ForRound(s)
  {
  }

  lemma AwaitedLess(s: State, key: int, next: nat)
    requires next < s.published
    ensures StepsLeft(s, Look(Job(key, next, next, 0))) < ForNext(s, next) - 1
  {
  }

  lemma AfterMissLess(s: State, job: Job)
    requires JobFits(s, job)
    ensures StepsLeft(s, AfterMiss(job)) < FromErase(s, job)
  {
  }

  // ----- alone

  ghost predicate OthersRest(s: State, t: nat) {
    forall u | u in s.threads && u != t :: s.threads[u].Idle?
  }

  /** No cell is locked, but by the thread that is alone. */
  lemma NoLock(s: State, t: nat, i: nat, c: nat)
    requires LocksAttended(s) && OthersRest(s, t) && t in s.threads && !s.threads[t].Write? && HasMap(s, i) && c < |s.slots[i].sub.cells|
    ensures s.slots[i].sub.cells[c] != Locked
  {
    hide ProbeAt;
    assert LockedByWriter(s, i, c);
  }

  lemma NoPending(s: State, t: nat, i: nat)
    requires CountsOk(s) && OthersRest(s, t) && t in s.threads && !Counted(s.threads[t], i) && HasMap(s, i)
    ensures s.slots[i].sub.pending == 0
  {
    assert Pending(s.threads, i) == {};
  }

  lemma NobodyBuilds(s: State, t: nat)
    requires OthersRest(s, t) && t in s.threads && !Building(s.threads[t])
    ensures !BeingBuilt(s)
  {
  }

  /** A slot that is taken holds a published array. */
  lemma NotAwaited(s: State, t: nat, next: nat)
    requires SlotsOk(s) && SlotAttended(s) && OthersRest(s, t) && t in s.threads && !Building(s.threads[t])
    requires next <= s.published && next < |s.slots| && s.slots[next] != Null
    ensures next < s.published
  {
    hide KeysOk, BeingBuilt;
    NobodyBuilds(s, t);
  }

  // ----- one step

  /** What an insert knows of its place. */
  ghost predicate Placed(s: State, pc: Pc) {
    && (Inserting(pc) ==> JobFits(s, pc.job) && pc.job.sub < s.published && pc.job.sub <= pc.job.limit <= s.published)
    && (pc.EraseLook? || pc.EraseSwap? ==> JobFits(s, pc.job))
  }

  lemma KnownPlace(s: State, t: nat)
    requires Inv(s) && t in s.threads
    ensures Placed(s, s.threads[t])
  {
    hide SlotsOk, CountsOk, WritersOk, BuilderOk, Clear, BarredBefore, ProbeAt;
    ThreadKnown(s, t);
  }

  /** Steps of an insert that only read. */
  lemma ReadLess(s: State, t: nat, a: Action, s': State)
    requires Next(s, t, a, s') && t in s.threads && t in s'.threads && Placed(s, s.threads[t])
    requires a.ToLook? || a.ToTestFull? || a.ToSpinFull? || a.ToRecheck? || a.ToWait? || a.ToCompare?
    requires var pc := s.threads[t]; Inserting(pc) ==> CellOf(s, pc.job) != Locked
    ensures s' == s.(threads := s'.threads) && StepsLeft(s, s'.threads[t]) < StepsLeft(s, s.threads[t])
  {
    hide ProbeAt, AfterFull, AfterMiss, FromErase, AfterArray, FromCell;
    var job := s.threads[t].job;
    CostsSome(s, job);
    AfterFullLess(s, job);
    NextCell(s, job);
  }

  lemma EraseLookLess(s: State, t: nat, a: Action, s': State)
    requires Next(s, t, a, s') && t in s.threads && t in s'.threads && Placed(s, s.threads[t]) && a.ToEraseLook?
    ensures s' == s.(threads := s'.threads) && StepsLeft(s, s'.threads[t]) < StepsLeft(s, s.threads[t])
  {
    hide ProbeAt, AfterMiss, FromErase;
    var job := s.threads[t].job;
    AfterMissLess(s, job);
    NextErase(s, job);
  }

  lemma NextCell(s: State, job: Job)
    ensures FromCell(s, job.(n := job.n + 1)) == FromCell(s, job) - 16
  {
  }

  lemma NextErase(s: State, job: Job)
    ensures FromErase(s, job.(n := job.n + 1)) == FromErase(s, job) - 16
  {
  }

  /** Steps that change an array. */
  lemma ChangeLess(s: State, t: nat, a: Action, s': State)
    requires Next(s, t, a, s') && t in s.threads && t in s'.threads && Placed(s, s.threads[t])
    requires a.ToAnnounce? || a.ToUnannounce? || a.ToSpinPending? || a.ToStoreFull? || a.ToTryLock?
    requires var pc := s.threads[t]; Inserting(pc) ==> CellOf(s, pc.job) != Locked
    requires var pc := s.threads[t]; Inserting(pc) ==> FromCell(s', pc.job) == FromCell(s, pc.job)
    requires a.ToSpinPending? ==> s.slots[s.threads[t].job.sub].sub.pending == 0
    ensures StepsLeft(s', s'.threads[t]) < StepsLeft(s, s.threads[t])
  {
    hide ProbeAt, FromCell, FromErase, AfterArray, AfterFull, AfterMiss;
    if Inserting(s.threads[t]) { CostsSome(s, s.threads[t].job); }
  }

  lemma CostsSome(s: State, job: Job)
    requires JobFits(s, job)
    ensures 16 <= FromCell(s, job)
  {
  }

  /** The last steps of an insert, and counting an erase. */
  lemma LastLess(s: State, t: nat, a: Action, s': State)
    requires Next(s, t, a, s') && t in s.threads && t in s'.threads
    requires a.ToWrite? || a.ToThrow? || a.ToCount? || a.ToMarkFull? || a.ToEraseCount?
    ensures StepsLeft(s', s'.threads[t]) < StepsLeft(s, s.threads[t])
  {
    hide ProbeAt;
  }

  lemma {:induction false} SameArrays(s: State, s': State, lo: nat, hi: nat)
    requires s'.slots == s.slots
    ensures InArrays(s', lo, hi) == InArrays(s, lo, hi)
    decreases hi - lo
  {
    if lo < hi { SameArrays(s, s', lo + 1, hi); }
  }

  lemma SameNext(s: State, s': State, next: nat)
    requires s' == s.(threads := s'.threads)
    ensures ForRound(s') == ForRound(s) && ForNext(s', next) == ForNext(s, next)
  {
    hide InArrays;
    SameArrays(s, s', 0, s.published);
  }

  lemma SameCell(s: State, s': State, job: Job)
    requires s' == s.(threads := s'.threads)
    ensures FromCell(s', job) == FromCell(s, job) && FromErase(s', job) == FromErase(s, job)
    ensures Free(s', job) == Free(s, job) && Taken(s', job) == Taken(s, job)
  {
    hide ProbeAt, InArrays, ForRound, ForNext;
    SameNext(s, s', job.limit);
    SameArrays(s, s', job.sub + 1, job.limit);
  }

  lemma SameLeft(s: State, s': State, pc: Pc)
    requires s' == s.(threads := s'.threads)
    ensures StepsLeft(s', pc) == StepsLeft(s, pc)
  {
    hide FromCell, FromErase, Free, Taken, ForRound, ForNext;
    match pc
    case Claim(_, next) => SameNext(s, s', next);
    case Await(_, next) => SameNext(s, s', next);
    case Again(_) => SameNext(s, s', 0);
    case Idle(_) =>
    case Build(_, _) =>
    case Publish(_, _) =>
    case _ => SameCell(s, s', pc.job);
  }

  lemma SwapLess(s: State, t: nat, s': State)
    requires DoEraseSwap(s, t, s') && Placed(s, s.threads[t])
    ensures t in s'.threads && StepsLeft(s', s'.threads[t]) < StepsLeft(s, s.threads[t])
  {
    hide ProbeAt, InArrays, StepsLeft;
    var job := s.threads[t].job;
    AfterMissLess(s, job);
    SwapLeft(s, job);
    if CellOf(s, job) != Holds(job.key) { SameLeft(s, s', s'.threads[t]); } else { CountLeft(s', job); }
  }

  lemma SwapLeft(s: State, job: Job)
    requires JobFits(s, job)
    ensures StepsLeft(s, EraseSwap(job)) == FromErase(s, job) + 2 > 2
  {
  }

  lemma CountLeft(s: State, job: Job)
    ensures StepsLeft(s, EraseCount(job)) == 1
  {
  }

  /** Steps towards another array. */
  lemma GrowLess(s: State, t: nat, a: Action, s': State)
    requires Inv(s) && NewIsEmpty(s) && SlotAttended(s) && OthersRest(s, t) && Next(s, t, a, s') && t in s.threads && t in s'.threads
    requires a.ToAgain? || a.ToClaim? || a.ToAwait? || a.ToBuild? || a.ToPublish?
    ensures StepsLeft(s', s'.threads[t]) < StepsLeft(s, s.threads[t])
  {
    hide CountsOk, WritersOk, KeysOk, BuilderOk, NewIsEmpty, SlotAttended, OthersRest, InArrays, ProbeAt, NextPowTwo, Clear, BarredBefore,
         Free, FromCell;
    var pc := s.threads[t];
    ThreadKnown(s, t);
    if a.ToAgain? || a.ToAwait? || (a.ToClaim? && s'.threads[t].Await?) {
      WaitLess(s, t, a, s');
    } else if a.ToPublish? {
      NewIsFree(s, t, s');
    }
  }

  lemma WaitLess(s: State, t: nat, a: Action, s': State)
    requires Next(s, t, a, s') && t in s.threads && t in s'.threads
    requires SlotsOk(s) && ThreadOk(s, s.threads[t]) && SlotAttended(s) && OthersRest(s, t)
    requires a.ToAgain? || a.ToAwait? || (a.ToClaim? && s'.threads[t].Await?)
    ensures StepsLeft(s', s'.threads[t]) < StepsLeft(s, s.threads[t])
  {
    hide KeysOk, SlotAttended, OthersRest, InArrays, ProbeAt, NextPowTwo, Clear, BarredBefore, Free, FromCell;
    var pc := s.threads[t];
    SameLeft(s, s', s'.threads[t]);
    if a.ToAgain? {
      RoundLess(s, pc.key);
    } else if a.ToAwait? {
      AwaitedLess(s, pc.key, pc.next);
    } else {
      NotAwaited(s, t, pc.next);
    }
  }

  lemma NewIsFree(s: State, t: nat, s': State)
    requires BuilderOk(s) && NewIsEmpty(s) && DoPublish(s, t, s')
    ensures t in s'.threads && s'.threads[t].Look? && Free(s', s'.threads[t].job)
  {
    hide ProbeAt;
  }

  lemma OneStepLess(s: State, t: nat, a: Action, s': State)
    requires Inv(s) && NewIsEmpty(s) && LocksAttended(s) && SlotAttended(s) && OthersRest(s, t)
    requires Next(s, t, a, s') && t in s.threads && !s.threads[t].Idle?
    ensures t in s'.threads && StepsLeft(s', s'.threads[t]) < StepsLeft(s, s.threads[t])
  {
    hide Inv, NewIsEmpty, LocksAttended, SlotAttended, OthersRest, Next, StepsLeft, FromCell, FromErase, ProbeAt, Placed, AllEvolve;
    Actor(s, t, a, s');
    KnownPlace(s, t);
    NextKeeps(s, t, a, s');
    if a.ToAgain? || a.ToClaim? || a.ToAwait? || a.ToBuild? || a.ToPublish? {
      GrowLess(s, t, a, s');
    } else if a.ToEraseLook? {
      EraseLookLess(s, t, a, s');
      SameLeft(s, s', s'.threads[t]);
    } else if a.ToLook? || a.ToTestFull? || a.ToSpinFull? || a.ToRecheck? || a.ToWait? || a.ToCompare? {
      Unlocked(s, t, a, s');
      ReadLess(s, t, a, s');
      SameLeft(s, s', s'.threads[t]);
    } else if a.ToAnnounce? || a.ToUnannounce? || a.ToSpinPending? || a.ToStoreFull? || a.ToTryLock? {
      Unlocked(s, t, a, s');
      ReadyToChange(s, t, a, s');
      ChangeLess(s, t, a, s');
    } else if a.ToEraseSwap? {
      SwapLess(s, t, s') by { IsSwap(s, t, a, s'); }
    } else {
      NoStart(s, t, a, s');
      LastLess(s, t, a, s');
    }
  }

  lemma Unlocked(s: State, t: nat, a: Action, s': State)
    requires Inv(s) && LocksAttended(s) && OthersRest(s, t) && Next(s, t, a, s') && t in s.threads && !a.ToWrite? && !a.ToThrow?
    requires Placed(s, s.threads[t])
    ensures var pc := s.threads[t]; Inserting(pc) ==> CellOf(s, pc.job) != Locked
  {
    hide Inv, LocksAttended, OthersRest, ProbeAt;
    var pc := s.threads[t];
    if Inserting(pc) { NoLock(s, t, pc.job.sub, CellIdx(s, pc.job)); }
  }

  lemma ReadyToChange(s: State, t: nat, a: Action, s': State)
    requires Inv(s) && AllEvolve(s, s') && OthersRest(s, t) && Next(s, t, a, s') && t in s.threads && Placed(s, s.threads[t])
    requires a.ToAnnounce? || a.ToUnannounce? || a.ToSpinPending? || a.ToStoreFull? || a.ToTryLock?
    ensures var pc := s.threads[t]; Inserting(pc) ==> FromCell(s', pc.job) == FromCell(s, pc.job)
    ensures a.ToSpinPending? ==> HasMap(s, s.threads[t].job.sub) && s.slots[s.threads[t].job.sub].sub.pending == 0
  {
    hide SlotsOk, CountsOk, ThreadsOk, WritersOk, BuilderOk, AllEvolve, OthersRest, ProbeAt, FromCell;
    var pc := s.threads[t];
    if Inserting(pc) { CellStays(s, s', pc.job); }
    if a.ToSpinPending? { NoPending(s, t, pc.job.sub); }
  }

  lemma IsSwap(s: State, t: nat, a: Action, s': State)
    requires Next(s, t, a, s') && a.ToEraseSwap?
    ensures DoEraseSwap(s, t, s')
  {
    hide DoEraseSwap;
  }

  lemma NoStart(s: State, t: nat, a: Action, s': State)
    requires Next(s, t, a, s') && t in s.threads && !s.threads[t].Idle?
    ensures !a.ToStart? && !a.ToStartErase?
  {
    hide ProbeAt, NextPowTwo;
  }

  // ----- runs

  /** From the i-th state to the j-th only t moves, all others rest, and t is in the middle of a call. */
  ghost predicate IsAlone(states: seq<State>, moves: seq<Move>, t: nat, i: nat, j: nat) {
    && IsRun(states, moves) && i <= j < |states| && t in states[i].threads && OthersRest(states[i], t)
    && (forall k | i <= k < j :: moves[k].thread == t && t in states[k].threads && !states[k].threads[t].Idle?)
  }

  lemma {:induction false} AloneRuns(states: seq<State>, moves: seq<Move>, t: nat, i: nat, j: nat, k: nat)
    requires IsAlone(states, moves, t, i, j) && i <= k <= j
    ensures t in states[k].threads && OthersRest(states[k], t)
    ensures StepsLeft(states[k], states[k].threads[t]) + (k - i) <= StepsLeft(states[i], states[i].threads[t])
  {
    hide Inv, Next, Init, NewIsEmpty, LocksAttended, SlotAttended, StepsLeft;
    if i < k {
      AloneRuns(states, moves, t, i, j, k - 1);
      RunKeeps(states, moves, k - 1);
      RunNewIsEmpty(states, moves, k - 1);
      RunAttended(states, moves, k - 1);
      Actor(states[k - 1], t, moves[k - 1].action, states[k]);
      OneStepLess(states[k - 1], t, moves[k - 1].action, states[k]);
    }
  }

  lemma NotNegative(s: State, t: nat)
    requires Inv(s) && t in s.threads
    ensures 0 <= StepsLeft(s, s.threads[t])
  {
    hide Inv, ProbeAt;
    KnownPlace(s, t);
  }

  /**
   While all others rest, a call of insert or erase, however far it has come, can always go on, and is over after a number
   of steps known beforehand.
   */
  lemma LoneCallEnds(states: seq<State>, moves: seq<Move>, t: nat, i: nat, j: nat)
    requires IsAlone(states, moves, t, i, j)
    ensures j - i <= StepsLeft(states[i], states[i].threads[t])
    ensures t in states[j].threads && CanStep(states[j], t)
  {
    hide Inv, Next, Init, StepsLeft, CanStep, Delays;
    AloneRuns(states, moves, t, i, j, j);
    RunKeeps(states, moves, j);
    NotNegative(states[j], t);
    var u := NobodyIsStuck(states, moves, j, t);
    NotDelayed(states[j], t, u);
  }

  lemma NotDelayed(s: State, t: nat, u: nat)
    requires OthersRest(s, t)
    ensures !Delays(s, t, u)
  {
    hide ProbeAt;
  }
}
