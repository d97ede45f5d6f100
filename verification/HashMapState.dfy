/** The growing hash map made of lock-free arrays: its shared state and what one thread may do next. */
module HashMapState {

  const NUM_SUB_MAPS: nat := 16

  /** isFull before, during and after the shutting of an array. */
  const OPEN: nat := 0
  const NO_NEW_INSERTS: nat := 1
  const NO_PENDING_INSERTS: nat := 2

  datatype Cell = Empty | Locked | Holds(key: int) | Erased

  /** An array; shut records that its pending count was once seen at zero while it was full. */
  datatype SubMap = SubMap(cells: seq<Cell>, isFull: nat, pending: nat, numEntries: nat, numErases: nat, shut: bool)

  datatype Slot = Null | Claimed | Built(sub: SubMap)

  /** How keys are probed, and whether the first array is large enough for the map to grow. */
  datatype Setup = Setup(hash: int -> nat, quadratic: bool, canGrow: bool)

  /** An insert: its key, the array it is trying, how many arrays the round covers, and how often it has probed. */
  datatype Job = Job(key: int, sub: nat, limit: nat, n: nat)

  /** What an insert and an erase end with: the key's cell and whether the key is new there, an exception, a count. */
  datatype Answer = None | Got(sub: nat, idx: nat, inserted: bool) | Threw | Full | EraseDone(erased: bool)

  /** Where a thread is; between two operations it remembers the last answer. */
  datatype Pc =
    | Idle(last: Answer)
    | Look(job: Job) | Announce(job: Job) | TestFull(job: Job)
    | Leave(job: Job) | SpinFull(job: Job) | SpinPending(job: Job) | StoreFull(job: Job) | Recheck(job: Job)
    | TryLock(job: Job) | Drop(job: Job) | Write(job: Job) | ThrowDrop(job: Job)
    | Landed(job: Job) | Count(job: Job) | MarkFull(job: Job)
    | Wait(job: Job) | Compare(job: Job) | Again(key: int)
    | Claim(key: int, next: nat) | Build(key: int, next: nat) | Publish(key: int, next: nat) | Await(key: int, next: nat)
    | EraseLook(job: Job) | EraseSwap(job: Job) | EraseCount(job: Job)

  datatype State = State(setup: Setup, slots: seq<Slot>, published: nat, threads: map<nat, Pc>)

  // ----- probing

  function NextPowTwo(n: nat, p: nat := 1): (r: nat)
    requires p > 0
    ensures r >= n && r > 0
    decreases n - p
  {
    if p >= n then p else NextPowTwo(n, 2 * p)
  }

  function KeyToAnchorIdx(setup: Setup, key: int, capacity: nat): (i: nat)
    requires capacity > 0
    ensures i < capacity
  {
    var probe := setup.hash(key) % NextPowTwo(capacity);
    if probe < capacity then probe else setup.hash(key) % capacity
  }

  /** The n-th cell that a key is looked for in. */
  function ProbeAt(setup: Setup, key: int, n: nat, capacity: nat): (i: nat)
    requires n < capacity
    ensures i < capacity
  {
    if n == 0 then KeyToAnchorIdx(setup, key, capacity)
    else
      var idx := ProbeAt(setup, key, n - 1, capacity) + (if setup.quadratic then n else 1);
      if idx < capacity then idx else idx - capacity
  }

  // ----- access

  predicate HasMap(s: State, i: nat) {
    i < |s.slots| && s.slots[i].Built? && |s.slots[i].sub.cells| > 0
  }

  predicate JobFits(s: State, job: Job) {
    HasMap(s, job.sub) && job.n < |s.slots[job.sub].sub.cells|
  }

  function CellIdx(s: State, job: Job): (i: nat)
    requires JobFits(s, job)
    ensures i < |s.slots[job.sub].sub.cells|
  {
    ProbeAt(s.setup, job.key, job.n, |s.slots[job.sub].sub.cells|)
  }

  function CellOf(s: State, job: Job): Cell
    requires JobFits(s, job)
  {
    s.slots[job.sub].sub.cells[CellIdx(s, job)]
  }

  function WithPc(s: State, t: nat, pc: Pc): State {
    s.(threads := s.threads[t := pc])
  }

  function WithMap(s: State, i: nat, m: SubMap): State
    requires i < |s.slots|
  {
    s.(slots := s.slots[i := Built(m)])
  }

  function WithCell(s: State, job: Job, cell: Cell): State
    requires JobFits(s, job)
  {
    var m := s.slots[job.sub].sub;
    WithMap(s, job.sub, m.(cells := m.cells[CellIdx(s, job) := cell]))
  }

  predicate At(s: State, t: nat) {
    t in s.threads
  }

  // ----- inserting into one array

  /** A round of inserts tries the arrays published so far, from the first. */
  ghost predicate Start(s: State, t: nat, s': State, key: int) {
    At(s, t) && s.threads[t].Idle? && s' == WithPc(s, t, Look(Job(key, 0, s.published, 0)))
  }

  ghost predicate DoLook(s: State, t: nat, s': State) {
    && At(s, t) && s.threads[t].Look?
    && var job := s.threads[t].job;
       JobFits(s, job) && s' == WithPc(s, t, if CellOf(s, job) == Empty then Announce(job) else Wait(job))
  }

  /** Counts the insert as pending, before it looks whether the array is full. */
  ghost predicate DoAnnounce(s: State, t: nat, s': State) {
    && At(s, t) && s.threads[t].Announce?
    && var job := s.threads[t].job;
       && HasMap(s, job.sub)
       && var m := s.slots[job.sub].sub;
          s' == WithPc(WithMap(s, job.sub, m.(pending := m.pending + 1)), t, TestFull(job))
  }

  ghost predicate DoTestFull(s: State, t: nat, s': State) {
    && At(s, t) && s.threads[t].TestFull?
    && var job := s.threads[t].job;
       HasMap(s, job.sub) && s' == WithPc(s, t, if s.slots[job.sub].sub.isFull != OPEN then Leave(job) else TryLock(job))
  }

  /** Ends the pending phase, with pc as what comes next. */
  ghost predicate Unannounce(s: State, t: nat, s': State, job: Job, pc: Pc) {
    && HasMap(s, job.sub) && s.slots[job.sub].sub.pending > 0
    && var m := s.slots[job.sub].sub;
       s' == WithPc(WithMap(s, job.sub, m.(pending := m.pending - 1)), t, pc)
  }

  ghost predicate DoUnannounce(s: State, t: nat, s': State) {
    && At(s, t)
    && match s.threads[t]
       case Leave(job) => Unannounce(s, t, s', job, SpinFull(job))
       case Drop(job) => Unannounce(s, t, s', job, Wait(job))
       case ThrowDrop(job) => Unannounce(s, t, s', job, Idle(Threw))
       case Landed(job) => Unannounce(s, t, s', job, Count(job))
       case _ => false
  }

  /** First half of the spin condition: somebody has finished the wait already. */
  ghost predicate DoSpinFull(s: State, t: nat, s': State) {
    && At(s, t) && s.threads[t].SpinFull?
    && var job := s.threads[t].job;
       && HasMap(s, job.sub)
       && s' == WithPc(s, t, if s.slots[job.sub].sub.isFull == NO_PENDING_INSERTS then StoreFull(job) else SpinPending(job))
  }

  /** Second half: no insert is pending any more. */
  ghost predicate DoSpinPending(s: State, t: nat, s': State) {
    && At(s, t) && s.threads[t].SpinPending?
    && var job := s.threads[t].job;
       && HasMap(s, job.sub)
       && var m := s.slots[job.sub].sub;
          if m.pending == 0 then s' == WithPc(WithMap(s, job.sub, m.(shut := true)), t, StoreFull(job))
          else s' == WithPc(s, t, SpinFull(job))
  }

  ghost predicate DoStoreFull(s: State, t: nat, s': State) {
    && At(s, t) && s.threads[t].StoreFull?
    && var job := s.threads[t].job;
       && HasMap(s, job.sub)
       && s' == WithPc(WithMap(s, job.sub, s.slots[job.sub].sub.(isFull := NO_PENDING_INSERTS)), t, Recheck(job))
  }

  /** After an array turned out to be full for a key: the next array, a new one, or another round. */
  function AfterFull(job: Job): Pc {
    if job.sub + 1 < job.limit then Look(Job(job.key, job.sub + 1, job.limit, 0))
    else if job.sub + 1 == job.limit then Claim(job.key, job.limit)
    else Again(job.key)
  }

  ghost predicate DoAgain(s: State, t: nat, s': State) {
    At(s, t) && s.threads[t].Again? && s' == WithPc(s, t, Look(Job(s.threads[t].key, 0, s.published, 0)))
  }

  ghost predicate DoRecheck(s: State, t: nat, s': State) {
    && At(s, t) && s.threads[t].Recheck?
    && var job := s.threads[t].job;
       JobFits(s, job) && s' == WithPc(s, t, if CellOf(s, job) == Empty then AfterFull(job) else Wait(job))
  }

  /** One compare-and-swap from empty to locked. */
  ghost predicate DoTryLock(s: State, t: nat, s': State) {
    && At(s, t) && s.threads[t].TryLock?
    && var job := s.threads[t].job;
       && JobFits(s, job)
       && if CellOf(s, job) == Empty then s' == WithPc(WithCell(s, job, Locked), t, Write(job))
          else s' == WithPc(s, t, Drop(job))
  }

  /** The value's constructor ran: the key is stored, which unlocks the cell. */
  ghost predicate DoWrite(s: State, t: nat, s': State) {
    && At(s, t) && s.threads[t].Write?
    && var job := s.threads[t].job;
       JobFits(s, job) && s' == WithPc(WithCell(s, job, Holds(job.key)), t, Landed(job))
  }

  /** The value's constructor threw: the cell is empty again. */
  ghost predicate DoThrow(s: State, t: nat, s': State) {
    && At(s, t) && s.threads[t].Write?
    && var job := s.threads[t].job;
       JobFits(s, job) && s' == WithPc(WithCell(s, job, Empty), t, ThrowDrop(job))
  }

  ghost predicate DoCount(s: State, t: nat, s': State) {
    && At(s, t) && s.threads[t].Count?
    && var job := s.threads[t].job;
       && HasMap(s, job.sub)
       && var m := s.slots[job.sub].sub;
          s' == WithPc(WithMap(s, job.sub, m.(numEntries := m.numEntries + 1)), t, MarkFull(job))
  }

  /** The entry count is read approximately, so either answer is possible. */
  ghost predicate DoMarkFull(s: State, t: nat, s': State, enough: bool) {
    && At(s, t) && s.threads[t].MarkFull?
    && var job := s.threads[t].job;
       && JobFits(s, job)
       && var done := Idle(Got(job.sub, CellIdx(s, job), true));
          if enough then s' == WithPc(WithMap(s, job.sub, s.slots[job.sub].sub.(isFull := NO_NEW_INSERTS)), t, done)
          else s' == WithPc(s, t, done)
  }

  ghost predicate DoWait(s: State, t: nat, s': State) {
    && At(s, t) && s.threads[t].Wait?
    && var job := s.threads[t].job;
       JobFits(s, job) && CellOf(s, job) != Locked && s' == WithPc(s, t, Compare(job))
  }

  /** The key is there, or the cell must be tried again, or the search probes on until it has seen every cell. */
  ghost predicate DoCompare(s: State, t: nat, s': State) {
    && At(s, t) && s.threads[t].Compare?
    && var job := s.threads[t].job;
       && JobFits(s, job)
       && var cell := CellOf(s, job);
          s' == WithPc(s, t,
                       if cell == Holds(job.key) then Idle(Got(job.sub, CellIdx(s, job), false))
                       else if cell == Empty || cell == Locked then Look(job)
                       else if job.n + 1 >= |s.slots[job.sub].sub.cells| then AfterFull(job)
                       else Look(job.(n := job.n + 1)))
  }

  // ----- adding an array

  /** Claims the next slot, or waits for whoever did; with no slot left the insert fails. */
  ghost predicate DoClaim(s: State, t: nat, s': State) {
    && At(s, t) && s.threads[t].Claim?
    && var key, next := s.threads[t].key, s.threads[t].next;
       if next >= NUM_SUB_MAPS || next >= |s.slots| || !s.setup.canGrow then s' == WithPc(s, t, Idle(Full))
       else if s.slots[next] == Null then s' == WithPc(s.(slots := s.slots[next := Claimed]), t, Build(key, next))
       else s' == WithPc(s, t, Await(key, next))
  }

  function EmptyMap(capacity: nat): SubMap {
    SubMap(seq(capacity, i => Empty), OPEN, 0, 0, 0, false)
  }

  ghost predicate DoBuild(s: State, t: nat, s': State, capacity: nat) {
    && At(s, t) && s.threads[t].Build? && capacity > 0 && s.threads[t].next < |s.slots|
    && var key, next := s.threads[t].key, s.threads[t].next;
       s' == WithPc(WithMap(s, next, EmptyMap(capacity)), t, Publish(key, next))
  }

  ghost predicate DoPublish(s: State, t: nat, s': State) {
    && At(s, t) && s.threads[t].Publish?
    && var key, next := s.threads[t].key, s.threads[t].next;
       s' == WithPc(s.(published := s.published + 1), t, Look(Job(key, next, next, 0)))
  }

  ghost predicate DoAwait(s: State, t: nat, s': State) {
    && At(s, t) && s.threads[t].Await?
    && var key, next := s.threads[t].key, s.threads[t].next;
       next < s.published && s' == WithPc(s, t, Look(Job(key, next, next, 0)))
  }

  // ----- erasing

  ghost predicate StartErase(s: State, t: nat, s': State, key: int) {
    At(s, t) && s.threads[t].Idle? && s' == WithPc(s, t, EraseLook(Job(key, 0, s.published, 0)))
  }

  /** The key is not in this array: the next one, if any. */
  function AfterMiss(job: Job): Pc {
    if job.sub + 1 < job.limit then EraseLook(Job(job.key, job.sub + 1, job.limit, 0)) else Idle(EraseDone(false))
  }

  ghost predicate DoEraseLook(s: State, t: nat, s': State) {
    && At(s, t) && s.threads[t].EraseLook?
    && var job := s.threads[t].job;
       && JobFits(s, job)
       && var cell := CellOf(s, job);
          s' == WithPc(s, t,
                       if cell == Empty || cell == Locked then AfterMiss(job)
                       else if cell == Holds(job.key) then EraseSwap(job)
                       else if job.n + 1 >= |s.slots[job.sub].sub.cells| then AfterMiss(job)
                       else EraseLook(job.(n := job.n + 1)))
  }

  /** One compare-and-swap from the key to erased; losing it means that somebody else erased the key. */
  ghost predicate DoEraseSwap(s: State, t: nat, s': State) {
    && At(s, t) && s.threads[t].EraseSwap?
    && var job := s.threads[t].job;
       && JobFits(s, job)
       && if CellOf(s, job) == Holds(job.key) then s' == WithPc(WithCell(s, job, Erased), t, EraseCount(job))
          else s' == WithPc(s, t, AfterMiss(job))
  }

  ghost predicate DoEraseCount(s: State, t: nat, s': State) {
    && At(s, t) && s.threads[t].EraseCount?
    && var job := s.threads[t].job;
       && HasMap(s, job.sub)
       && var m := s.slots[job.sub].sub;
          s' == WithPc(WithMap(s, job.sub, m.(numErases := m.numErases + 1)), t, Idle(EraseDone(true)))
  }

  // ----- runs

  datatype Action =
    | ToStart(key: int) | ToLook | ToAnnounce | ToTestFull | ToUnannounce | ToSpinFull | ToSpinPending | ToStoreFull
    | ToRecheck | ToAgain | ToTryLock | ToWrite | ToThrow | ToCount | ToMarkFull(enough: bool) | ToWait | ToCompare
    | ToClaim | ToBuild(capacity: nat) | ToPublish | ToAwait
    | ToStartErase(key: int) | ToEraseLook | ToEraseSwap | ToEraseCount

  ghost predicate Next(s: State, t: nat, a: Action, s': State) {
    match a
    case ToStart(key) => Start(s, t, s', key)
    case ToLook => DoLook(s, t, s')
    case ToAnnounce => DoAnnounce(s, t, s')
    case ToTestFull => DoTestFull(s, t, s')
    case ToUnannounce => DoUnannounce(s, t, s')
    case ToSpinFull => DoSpinFull(s, t, s')
    case ToSpinPending => DoSpinPending(s, t, s')
    case ToStoreFull => DoStoreFull(s, t, s')
    case ToRecheck => DoRecheck(s, t, s')
    case ToAgain => DoAgain(s, t, s')
    case ToTryLock => DoTryLock(s, t, s')
    case ToWrite => DoWrite(s, t, s')
    case ToThrow => DoThrow(s, t, s')
    case ToCount => DoCount(s, t, s')
    case ToMarkFull(enough) => DoMarkFull(s, t, s', enough)
    case ToWait => DoWait(s, t, s')
    case ToCompare => DoCompare(s, t, s')
    case ToClaim => DoClaim(s, t, s')
    case ToBuild(capacity) => DoBuild(s, t, s', capacity)
    case ToPublish => DoPublish(s, t, s')
    case ToAwait => DoAwait(s, t, s')
    case ToStartErase(key) => StartErase(s, t, s', key)
    case ToEraseLook => DoEraseLook(s, t, s')
    case ToEraseSwap => DoEraseSwap(s, t, s')
    case ToEraseCount => DoEraseCount(s, t, s')
  }

  /** One empty array, and any number of threads with nothing to do. */
  ghost predicate Init(s: State) {
    && |s.slots| == NUM_SUB_MAPS && s.published == 1
    && HasMap(s, 0) && s.slots[0].sub == EmptyMap(|s.slots[0].sub.cells|)
    && (forall i | 0 < i < |s.slots| :: s.slots[i] == Null)
    && (forall t | t in s.threads :: s.threads[t] == Idle(None))
  }
}
