/** Why a key is live at most once, and why a full array stays closed to new keys. */
module HashMapProofs {
  import opened HashMapState

  // ----- what cells say about a key

  /** A cell that will never hold the key: it holds another one, or held one. */
  predicate Settled(cell: Cell, k: int) {
    cell.Erased? || (cell.Holds? && cell.key != k)
  }

  predicate SettledAt(setup: Setup, cells: seq<Cell>, k: int, m: nat) {
    m < |cells| && Settled(cells[ProbeAt(setup, k, m, |cells|)], k)
  }

  /** The first n cells that the key is probed for in are settled. */
  ghost predicate Clear(setup: Setup, cells: seq<Cell>, k: int, n: nat) {
    n <= |cells| && forall m: nat | m < n :: SettledAt(setup, cells, k, m)
  }

  ghost predicate Absent(cells: seq<Cell>, k: int) {
    forall c | 0 <= c < |cells| :: cells[c] != Holds(k)
  }

  /** An array that does not hold the key and never will. */
  ghost predicate Barred(setup: Setup, m: SubMap, k: int) {
    (m.shut && Absent(m.cells, k)) || Clear(setup, m.cells, k, |m.cells|)
  }

  /** A key sits at a cell of its probe sequence, behind settled ones only. */
  ghost predicate Reached(setup: Setup, cells: seq<Cell>, k: int, c: nat) {
    exists n: nat :: n < |cells| && ProbeAt(setup, k, n, |cells|) == c && Clear(setup, cells, k, n)
  }

  ghost predicate BarredBefore(s: State, i: nat, k: int) {
    forall j: nat | j < i :: HasMap(s, j) && Barred(s.setup, s.slots[j].sub, k)
  }

  // ----- the invariant

  ghost predicate KeysOk(s: State, i: nat)
    requires HasMap(s, i)
  {
    var cells := s.slots[i].sub.cells;
    forall c: nat | c < |cells| && cells[c].Holds? ::
      Reached(s.setup, cells, cells[c].key, c) && BarredBefore(s, i, cells[c].key)
  }

  predicate FlagsOk(m: SubMap) {
    && (m.isFull == NO_PENDING_INSERTS ==> m.shut)
    && (m.shut ==> m.isFull != OPEN)
  }

  ghost predicate SlotsOk(s: State) {
    && |s.slots| == NUM_SUB_MAPS && 1 <= s.published <= |s.slots|
    && (forall i: nat | i < s.published :: HasMap(s, i))
    && (forall i: nat | s.published < i < |s.slots| :: s.slots[i] == Null)
    && (forall i: nat | HasMap(s, i) :: KeysOk(s, i) && FlagsOk(s.slots[i].sub))
  }

  /** Between the counting of a pending insert and the end of it. */
  predicate Counted(pc: Pc, i: nat) {
    (pc.TestFull? || pc.Leave? || pc.TryLock? || pc.Drop? || pc.Write? || pc.ThrowDrop? || pc.Landed?) && pc.job.sub == i
  }

  /** Past the test for a full array: the only place where a key can still be added. */
  predicate Adding(pc: Pc, i: nat) {
    (pc.TryLock? || pc.Write?) && pc.job.sub == i
  }

  function Pending(threads: map<nat, Pc>, i: nat): set<nat> {
    set t | t in threads && Counted(threads[t], i)
  }

  ghost predicate CountsOk(s: State) {
    forall i: nat | HasMap(s, i) ::
      && s.slots[i].sub.pending == |Pending(s.threads, i)|
      && (s.slots[i].sub.shut ==> forall t | t in s.threads :: !Adding(s.threads[t], i))
  }

  predicate Inserting(pc: Pc) {
    || pc.Look? || pc.Announce? || pc.TestFull? || pc.Leave? || pc.SpinFull? || pc.SpinPending? || pc.StoreFull?
    || pc.Recheck? || pc.TryLock? || pc.Drop? || pc.Write? || pc.Wait? || pc.Compare?
  }

  ghost predicate JobOk(s: State, job: Job) {
    && JobFits(s, job) && job.sub < s.published && job.sub <= job.limit <= s.published
    && Clear(s.setup, s.slots[job.sub].sub.cells, job.key, job.n)
    && BarredBefore(s, job.sub, job.key)
  }

  ghost predicate ThreadOk(s: State, pc: Pc) {
    && (Inserting(pc) ==> JobOk(s, pc.job))
    && (pc.SpinFull? || pc.SpinPending? || pc.Leave? ==> s.slots[pc.job.sub].sub.isFull != OPEN)
    && (pc.StoreFull? || pc.Recheck? ==> s.slots[pc.job.sub].sub.shut)
    && (pc.ThrowDrop? ==> HasMap(s, pc.job.sub))
    && (pc.Landed? || pc.Count? || pc.MarkFull? || pc.EraseCount? ==> JobFits(s, pc.job))
    && (pc.Landed? || pc.Count? || pc.MarkFull? ==> pc.job.sub < s.published)
    && (pc.EraseLook? || pc.EraseSwap? ==> JobFits(s, pc.job) && pc.job.limit <= s.published)
    && (pc.Claim? || pc.Await? ==> pc.next <= s.published && BarredBefore(s, pc.next, pc.key))
    && (pc.Build? || pc.Publish? ==> BarredBefore(s, pc.next, pc.key))
  }

  ghost predicate ThreadsOk(s: State) {
    forall t | t in s.threads :: ThreadOk(s, s.threads[t])
  }

  predicate WritesAt(s: State, t: nat, i: nat, c: nat) {
    t in s.threads && s.threads[t].Write? && JobFits(s, s.threads[t].job)
    && s.threads[t].job.sub == i && CellIdx(s, s.threads[t].job) == c
  }

  /** A writer has its cell locked, and no two writers share one. */
  ghost predicate WritersOk(s: State) {
    && (forall t: nat, i: nat, c: nat | WritesAt(s, t, i, c) :: s.slots[i].sub.cells[c] == Locked)
    && (forall t: nat, u: nat, i: nat, c: nat | WritesAt(s, t, i, c) && WritesAt(s, u, i, c) :: t == u)
  }

  predicate Building(pc: Pc) {
    pc.Build? || pc.Publish?
  }

  /** At most one thread adds an array, into the slot right behind the published ones. */
  ghost predicate BuilderOk(s: State) {
    && (forall t | t in s.threads && Building(s.threads[t]) ::
          && s.threads[t].next == s.published < |s.slots|
          && if s.threads[t].Build? then s.slots[s.published] == Claimed else HasMap(s, s.published))
    && (forall t, u | t in s.threads && u in s.threads && Building(s.threads[t]) && Building(s.threads[u]) :: t == u)
  }

  ghost predicate Inv(s: State) {
    SlotsOk(s) && CountsOk(s) && ThreadsOk(s) && WritersOk(s) && BuilderOk(s)
  }

  // ----- how arrays may change

  /** Keys give way to erased marks only, and a shut array gets no new ones. */
  predicate CellGrows(a: Cell, b: Cell, shut: bool) {
    && (a.Erased? ==> b.Erased?)
    && (a.Holds? ==> b == a || b.Erased?)
    && (shut && b.Holds? ==> b == a)
  }

  ghost predicate Evolves(m: SubMap, m': SubMap) {
    && |m'.cells| == |m.cells| && (m.shut ==> m'.shut) && (m.isFull != OPEN ==> m'.isFull != OPEN)
    && (forall c | 0 <= c < |m.cells| :: CellGrows(m.cells[c], m'.cells[c], m.shut))
  }

  ghost predicate AllEvolve(s: State, s': State) {
    && s'.setup == s.setup && |s'.slots| == |s.slots| && s.published <= s'.published
    && forall i: nat | HasMap(s, i) :: HasMap(s', i) && Evolves(s.slots[i].sub, s'.slots[i].sub)
  }

  lemma ClearStays(setup: Setup, m: SubMap, m': SubMap, k: int, n: nat)
    requires Evolves(m, m') && Clear(setup, m.cells, k, n)
    ensures Clear(setup, m'.cells, k, n)
  {
    forall i: nat | i < n
      ensures SettledAt(setup, m'.cells, k, i)
    {
      assert SettledAt(setup, m.cells, k, i);
    }
  }

  lemma BarredStays(setup: Setup, m: SubMap, m': SubMap, k: int)
    requires Evolves(m, m') && Barred(setup, m, k)
    ensures Barred(setup, m', k)
  {
    if Clear(setup, m.cells, k, |m.cells|) {
      ClearStays(setup, m, m', k, |m.cells|);
    } else {
      forall c | 0 <= c < |m'.cells|
        ensures m'.cells[c] != Holds(k)
      {
        assert CellGrows(m.cells[c], m'.cells[c], m.shut);
      }
    }
  }

  lemma BarredBeforeStays(s: State, s': State, i: nat, k: int)
    requires AllEvolve(s, s') && BarredBefore(s, i, k)
    ensures BarredBefore(s', i, k)
  {
    forall j: nat | j < i
      ensures HasMap(s', j) && Barred(s'.setup, s'.slots[j].sub, k)
    {
      BarredStays(s.setup, s.slots[j].sub, s'.slots[j].sub, k);
    }
  }

  /** What a thread knows survives every change of this kind. */
  lemma ThreadStays(s: State, s': State, pc: Pc)
    requires AllEvolve(s, s') && ThreadOk(s, pc)
    ensures ThreadOk(s', pc)
  {
    if Inserting(pc) {
      ClearStays(s.setup, s.slots[pc.job.sub].sub, s'.slots[pc.job.sub].sub, pc.job.key, pc.job.n);
      BarredBeforeStays(s, s', pc.job.sub, pc.job.key);
    }
    if pc.Claim? || pc.Await? || pc.Build? || pc.Publish? { BarredBeforeStays(s, s', pc.next, pc.key); }
  }

  /** The keys of an array that only evolves stay where they may be. */
  lemma KeysStay(s: State, s': State, i: nat)
    requires AllEvolve(s, s') && HasMap(s, i) && KeysOk(s, i)
    requires forall c: nat | c < |s.slots[i].sub.cells| && s'.slots[i].sub.cells[c].Holds? ::
               s'.slots[i].sub.cells[c] == s.slots[i].sub.cells[c]
    ensures KeysOk(s', i)
  {
    var cells, cells' := s.slots[i].sub.cells, s'.slots[i].sub.cells;
    forall c: nat | c < |cells'| && cells'[c].Holds?
      ensures Reached(s'.setup, cells', cells'[c].key, c) && BarredBefore(s', i, cells'[c].key)
    {
      var k := cells[c].key;
      assert Reached(s.setup, cells, k, c);
      var n: nat :| n < |cells| && ProbeAt(s.setup, k, n, |cells|) == c && Clear(s.setup, cells, k, n);
      ClearStays(s.setup, s.slots[i].sub, s'.slots[i].sub, k, n);
      BarredBeforeStays(s, s', i, k);
    }
  }

  // ----- what the invariant says about one key

  /** No two cells of the map hold the same key. */
  lemma LiveOnce(s: State, k: int, i: nat, c: nat, j: nat, d: nat)
    requires SlotsOk(s) && HasMap(s, i) && HasMap(s, j) && c < |s.slots[i].sub.cells| && d < |s.slots[j].sub.cells|
    requires s.slots[i].sub.cells[c] == Holds(k) && s.slots[j].sub.cells[d] == Holds(k)
    ensures i == j && c == d
  {
    assert KeysOk(s, i) && KeysOk(s, j);
    if i < j { NotBarred(s, i, c, k); }
    if j < i { NotBarred(s, j, d, k); }
    if i == j { SameCell(s.setup, s.slots[i].sub.cells, k, c, d); }
  }

  lemma SameCell(setup: Setup, cells: seq<Cell>, k: int, c: nat, d: nat)
    requires c < |cells| && d < |cells| && cells[c] == Holds(k) && cells[d] == Holds(k)
    requires Reached(setup, cells, k, c) && Reached(setup, cells, k, d)
    ensures c == d
  {
    var n: nat :| n < |cells| && ProbeAt(setup, k, n, |cells|) == c && Clear(setup, cells, k, n);
    var m: nat :| m < |cells| && ProbeAt(setup, k, m, |cells|) == d && Clear(setup, cells, k, m);
    assert n < m ==> SettledAt(setup, cells, k, n);
    assert m < n ==> SettledAt(setup, cells, k, m);
  }

  /** A barred array does not hold the key. */
  lemma NotBarred(s: State, i: nat, c: nat, k: int)
    requires HasMap(s, i) && KeysOk(s, i) && c < |s.slots[i].sub.cells| && s.slots[i].sub.cells[c] == Holds(k)
    ensures !Barred(s.setup, s.slots[i].sub, k)
  {
    var cells := s.slots[i].sub.cells;
    assert Reached(s.setup, cells, k, c);
    var n: nat :| n < |cells| && ProbeAt(s.setup, k, n, |cells|) == c && Clear(s.setup, cells, k, n);
    assert !SettledAt(s.setup, cells, k, n);
  }

  /** An empty cell behind settled ones: the key is nowhere in the array. */
  lemma EmptyMeansAbsent(s: State, job: Job)
    requires JobFits(s, job) && KeysOk(s, job.sub) && Clear(s.setup, s.slots[job.sub].sub.cells, job.key, job.n)
    requires CellOf(s, job) == Empty
    ensures Absent(s.slots[job.sub].sub.cells, job.key)
  {
    var cells := s.slots[job.sub].sub.cells;
    forall c: nat | c < |cells|
      ensures cells[c] != Holds(job.key)
    {
      if cells[c].Holds? { NotBehindEmpty(s.setup, cells, job.key, job.n, cells[c].key, c); }
    }
  }

  lemma NotBehindEmpty(setup: Setup, cells: seq<Cell>, k: int, p: nat, key: int, c: nat)
    requires p < |cells| && Clear(setup, cells, k, p) && cells[ProbeAt(setup, k, p, |cells|)] == Empty
    requires c < |cells| && cells[c] == Holds(key) && Reached(setup, cells, key, c)
    ensures key != k
  {
    var n: nat :| n < |cells| && ProbeAt(setup, key, n, |cells|) == c && Clear(setup, cells, key, n);
    assert !SettledAt(setup, cells, k, p);
    if n < p { assert SettledAt(setup, cells, k, n); }
  }

  // ----- counting pending inserts

  lemma PendingChange(threads: map<nat, Pc>, t: nat, pc: Pc, i: nat)
    requires t in threads
    ensures
      |Pending(threads[t := pc], i)| + (if Counted(threads[t], i) then 1 else 0) ==
      |Pending(threads, i)| + (if Counted(pc, i) then 1 else 0)
  {
    var before, after := Pending(threads, i), Pending(threads[t := pc], i);
    if Counted(threads[t], i) {
      if Counted(pc, i) { assert after == before; } else { assert after == before - {t}; }
    } else {
      if Counted(pc, i) { assert after == before + {t}; } else { assert after == before; }
    }
  }

  lemma NonePending(threads: map<nat, Pc>, t: nat, i: nat)
    requires |Pending(threads, i)| == 0 && t in threads
    ensures !Counted(threads[t], i) && !Adding(threads[t], i)
  {
    assert t !in Pending(threads, i);
  }

  // ----- putting a step together

  ghost predicate PendingMoves(s: State, s': State, pc: Pc, pc': Pc) {
    forall i: nat | HasMap(s, i) ::
      HasMap(s', i) &&
      s'.slots[i].sub.pending + (if Counted(pc, i) then 1 else 0) == s.slots[i].sub.pending + (if Counted(pc', i) then 1 else 0)
  }

  /** A step that changes arrays but adds none. */
  lemma ArrayStep(s: State, t: nat, s': State, pc: Pc)
    requires Inv(s) && t in s.threads && AllEvolve(s, s') && s'.threads == s.threads[t := pc]
    requires s'.published == s.published
    requires forall i: nat | i < |s.slots| && !HasMap(s, i) :: s'.slots[i] == s.slots[i]
    requires forall i: nat | HasMap(s, i) :: KeysOk(s', i) && FlagsOk(s'.slots[i].sub)
    requires PendingMoves(s, s', s.threads[t], pc)
    requires forall i: nat | HasMap(s, i) && s'.slots[i].sub.shut ::
               !Adding(pc, i) && (s.slots[i].sub.shut || forall u | u in s.threads && u != t :: !Adding(s.threads[u], i))
    requires ThreadOk(s', pc) && WritersOk(s')
    requires Building(pc) ==> s.threads[t] == pc
    ensures Inv(s') && AllEvolve(s, s')
  {
    hide ThreadOk, KeysOk, WritersOk;
    forall u | u in s'.threads
      ensures ThreadOk(s', s'.threads[u])
    {
      if u != t { ThreadStays(s, s', s.threads[u]); }
    }
    forall i: nat | HasMap(s', i)
      ensures s'.slots[i].sub.pending == |Pending(s'.threads, i)|
      ensures s'.slots[i].sub.shut ==> forall u | u in s'.threads :: !Adding(s'.threads[u], i)
    {
      assert HasMap(s, i);
      PendingChange(s.threads, t, pc, i);
    }
    forall u | u in s'.threads && Building(s'.threads[u])
      ensures
        && s'.threads[u].next == s'.published < |s'.slots|
        && if s'.threads[u].Build? then s'.slots[s'.published] == Claimed else HasMap(s', s'.published)
    {
    }
  }

  lemma SelfEvolves(s: State, s': State)
    requires s' == s.(threads := s'.threads)
    ensures AllEvolve(s, s')
    ensures forall i: nat | HasMap(s, i) && KeysOk(s, i) :: KeysOk(s', i)
  {
    forall i: nat | HasMap(s, i) && KeysOk(s, i)
      ensures KeysOk(s', i)
    {
      KeysStay(s, s', i);
    }
  }

  /** A step that only changes what one thread remembers. */
  lemma LocalStep(s: State, t: nat, s': State, pc: Pc)
    requires Inv(s) && t in s.threads && s' == WithPc(s, t, pc) && ThreadOk(s, pc)
    requires forall i: nat | HasMap(s, i) :: Counted(pc, i) == Counted(s.threads[t], i)
    requires forall i: nat | HasMap(s, i) && s.slots[i].sub.shut :: !Adding(pc, i)
    requires pc.Write? || Building(pc) ==> s.threads[t] == pc
    ensures Inv(s') && AllEvolve(s, s')
  {
    hide ThreadOk, KeysOk;
    if ThreadOk(s, pc) { SelfEvolvesKeep(s, s', pc); }
    SelfEvolves(s, s');
    WritersLocal(s, t, s', pc);
    ArrayStep(s, t, s', pc);
  }

  lemma SelfEvolvesKeep(s: State, s': State, pc: Pc)
    requires s' == s.(threads := s'.threads) && ThreadOk(s, pc)
    ensures ThreadOk(s', pc)
  {
    ThreadStays(s, s', pc);
  }

  lemma WritersLocal(s: State, t: nat, s': State, pc: Pc)
    requires WritersOk(s) && s' == WithPc(s, t, pc) && t in s.threads && (pc.Write? ==> s.threads[t] == pc)
    ensures WritersOk(s')
  {
    forall u: nat, i: nat, c: nat | WritesAt(s', u, i, c)
      ensures s'.slots[i].sub.cells[c] == Locked
    {
      assert WritesAt(s, u, i, c);
    }
    forall u: nat, v: nat, i: nat, c: nat | WritesAt(s', u, i, c) && WritesAt(s', v, i, c)
      ensures u == v
    {
      assert WritesAt(s, u, i, c) && WritesAt(s, v, i, c);
    }
  }

  lemma FreshJob(s: State, key: int)
    requires SlotsOk(s)
    ensures JobOk(s, Job(key, 0, s.published, 0))
  {
  }

  lemma StartKeeps(s: State, t: nat, s': State, key: int)
    requires Inv(s) && Start(s, t, s', key)
    ensures Inv(s') && AllEvolve(s, s')
  {
    FreshJob(s, key);
    LocalStep(s, t, s', s'.threads[t]);
  }

  lemma LookKeeps(s: State, t: nat, s': State)
    requires Inv(s) && DoLook(s, t, s')
    ensures Inv(s') && AllEvolve(s, s')
  {
    hide JobOk, SlotsOk, CountsOk, WritersOk, BuilderOk;
    assert ThreadOk(s, s.threads[t]);
    LocalStep(s, t, s', s'.threads[t]);
  }

  lemma TestFullKeeps(s: State, t: nat, s': State)
    requires Inv(s) && DoTestFull(s, t, s')
    ensures Inv(s') && AllEvolve(s, s')
  {
    hide JobOk, WritersOk, BuilderOk;
    assert ThreadOk(s, s.threads[t]);
    var job := s.threads[t].job;
    assert FlagsOk(s.slots[job.sub].sub);
    LocalStep(s, t, s', s'.threads[t]);
  }

  lemma SpinFullKeeps(s: State, t: nat, s': State)
    requires Inv(s) && DoSpinFull(s, t, s')
    ensures Inv(s') && AllEvolve(s, s')
  {
    hide JobOk, WritersOk, BuilderOk, CountsOk;
    assert ThreadOk(s, s.threads[t]);
    assert FlagsOk(s.slots[s.threads[t].job.sub].sub);
    LocalStep(s, t, s', s'.threads[t]);
  }

  lemma WaitKeeps(s: State, t: nat, s': State)
    requires Inv(s) && DoWait(s, t, s')
    ensures Inv(s') && AllEvolve(s, s')
  {
    hide JobOk, SlotsOk, CountsOk, WritersOk, BuilderOk;
    assert ThreadOk(s, s.threads[t]);
    LocalStep(s, t, s', s'.threads[t]);
  }

  /** After an array is barred for the key, the insert may go on to what comes next. */
  lemma AfterFullOk(s: State, job: Job)
    requires SlotsOk(s) && JobOk(s, job) && Barred(s.setup, s.slots[job.sub].sub, job.key)
    ensures ThreadOk(s, AfterFull(job))
  {
    assert BarredBefore(s, job.sub + 1, job.key);
    if job.sub + 1 < job.limit { assert HasMap(s, job.sub + 1); }
  }

  lemma AgainKeeps(s: State, t: nat, s': State)
    requires Inv(s) && DoAgain(s, t, s')
    ensures Inv(s') && AllEvolve(s, s')
  {
    FreshJob(s, s.threads[t].key);
    LocalStep(s, t, s', s'.threads[t]);
  }

  lemma RecheckKeeps(s: State, t: nat, s': State)
    requires Inv(s) && DoRecheck(s, t, s')
    ensures Inv(s') && AllEvolve(s, s')
  {
    assert ThreadOk(s, s.threads[t]);
    var job := s.threads[t].job;
    if CellOf(s, job) == Empty {
      EmptyMeansAbsent(s, job);
      AfterFullOk(s, job);
    }
    LocalStep(s, t, s', s'.threads[t]);
  }

  lemma OneMoreClear(s: State, job: Job)
    requires JobFits(s, job) && Clear(s.setup, s.slots[job.sub].sub.cells, job.key, job.n) && Settled(CellOf(s, job), job.key)
    ensures Clear(s.setup, s.slots[job.sub].sub.cells, job.key, job.n + 1)
  {
  }

  lemma CompareKeeps(s: State, t: nat, s': State)
    requires Inv(s) && DoCompare(s, t, s')
    ensures Inv(s') && AllEvolve(s, s')
  {
    hide WritersOk, BuilderOk, CountsOk;
    assert ThreadOk(s, s.threads[t]);
    var job := s.threads[t].job;
    var cell := CellOf(s, job);
    if cell != Holds(job.key) && cell != Empty && cell != Locked {
      OneMoreClear(s, job);
      if job.n + 1 >= |s.slots[job.sub].sub.cells| { AfterFullOk(s, job); }
    }
    LocalStep(s, t, s', s'.threads[t]);
  }

  lemma StartEraseKeeps(s: State, t: nat, s': State, key: int)
    requires Inv(s) && StartErase(s, t, s', key)
    ensures Inv(s') && AllEvolve(s, s')
  {
    FreshJob(s, key);
    LocalStep(s, t, s', s'.threads[t]);
  }

  lemma AfterMissOk(s: State, job: Job)
    requires SlotsOk(s) && job.limit <= s.published
    ensures ThreadOk(s, AfterMiss(job))
  {
    if job.sub + 1 < job.limit { assert HasMap(s, job.sub + 1); }
  }

  lemma EraseLookKeeps(s: State, t: nat, s': State)
    requires Inv(s) && DoEraseLook(s, t, s')
    ensures Inv(s') && AllEvolve(s, s')
  {
    hide WritersOk, BuilderOk, CountsOk;
    assert ThreadOk(s, s.threads[t]);
    AfterMissOk(s, s.threads[t].job);
    LocalStep(s, t, s', s'.threads[t]);
  }

  lemma AwaitKeeps(s: State, t: nat, s': State)
    requires Inv(s) && DoAwait(s, t, s')
    ensures Inv(s') && AllEvolve(s, s')
  {
    hide WritersOk, BuilderOk, CountsOk;
    assert ThreadOk(s, s.threads[t]);
    assert HasMap(s, s.threads[t].next);
    LocalStep(s, t, s', s'.threads[t]);
  }

  // ----- steps that change an array's counters and flags

  /** Only the counters and flags of one array differ. */
  ghost predicate FlagsOnly(s: State, s': State, i: nat, m: SubMap) {
    && HasMap(s, i) && s'.slots == s.slots[i := Built(m)] && s'.setup == s.setup && s'.published == s.published
    && m.cells == s.slots[i].sub.cells && (s.slots[i].sub.shut ==> m.shut)
    && (s.slots[i].sub.isFull != OPEN ==> m.isFull != OPEN)
  }

  lemma FlagsEvolve(s: State, s': State, i: nat, m: SubMap)
    requires FlagsOnly(s, s', i, m)
    ensures AllEvolve(s, s')
    ensures forall j: nat | HasMap(s, j) && KeysOk(s, j) :: KeysOk(s', j)
  {
    forall j: nat | HasMap(s, j) && KeysOk(s, j)
      ensures KeysOk(s', j)
    {
      KeysStay(s, s', j);
    }
  }

  lemma FlagsWriters(s: State, t: nat, s': State, i: nat, m: SubMap, pc: Pc)
    requires WritersOk(s) && FlagsOnly(s, s', i, m) && s'.threads == s.threads[t := pc] && t in s.threads && !pc.Write?
    ensures WritersOk(s')
  {
    forall u: nat, j: nat, c: nat | WritesAt(s', u, j, c)
      ensures WritesAt(s, u, j, c) && s'.slots[j].sub.cells[c] == Locked
    {
      assert WritesAt(s, u, j, c);
    }
  }

  lemma FlagsStep(s: State, t: nat, s': State, i: nat, m: SubMap, pc: Pc)
    requires Inv(s) && t in s.threads && FlagsOnly(s, s', i, m) && s'.threads == s.threads[t := pc]
    requires FlagsOk(m) && ThreadOk(s', pc) && !pc.Write? && !Building(pc)
    requires m.pending + (if Counted(s.threads[t], i) then 1 else 0) == s.slots[i].sub.pending + (if Counted(pc, i) then 1 else 0)
    requires forall j: nat | HasMap(s, j) && j != i :: Counted(pc, j) == Counted(s.threads[t], j)
    requires forall j: nat | HasMap(s, j) && s'.slots[j].sub.shut :: !Adding(pc, j)
    requires m.shut && !s.slots[i].sub.shut ==> forall u | u in s.threads && u != t :: !Adding(s.threads[u], i)
    ensures Inv(s') && AllEvolve(s, s')
  {
    hide ThreadOk, KeysOk, WritersOk;
    FlagsEvolve(s, s', i, m);
    FlagsWriters(s, t, s', i, m, pc);
    ArrayStep(s, t, s', pc);
  }

  lemma AnnounceKeeps(s: State, t: nat, s': State)
    requires Inv(s) && DoAnnounce(s, t, s')
    ensures Inv(s') && AllEvolve(s, s')
  {
    var job := s.threads[t].job;
    var m := s.slots[job.sub].sub;
    assert ThreadOk(s, s.threads[t]) && FlagsOk(m);
    var m' := m.(pending := m.pending + 1);
    FlagsEvolve(s, s', job.sub, m');
    ThreadStays(s, s', s.threads[t]);
    hide JobOk, WritersOk, BuilderOk, AllEvolve, SlotsOk, CountsOk;
    FlagsStep(s, t, s', job.sub, m', s'.threads[t]);
  }

  lemma UnannounceStep(s: State, t: nat, s': State, job: Job, pc: Pc)
    requires Inv(s) && t in s.threads && Counted(s.threads[t], job.sub) && s.threads[t].job == job
    requires Unannounce(s, t, s', job, pc) && ThreadOk(s, pc)
    requires pc.SpinFull? || pc.Wait? || pc.Idle? || pc.Count?
    ensures Inv(s') && AllEvolve(s, s')
  {
    hide ThreadOk, CountsOk, WritersOk, BuilderOk;
    var m := s.slots[job.sub].sub;
    assert FlagsOk(m);
    var m' := m.(pending := m.pending - 1);
    FlagsEvolve(s, s', job.sub, m');
    ThreadStays(s, s', pc);
    FlagsStep(s, t, s', job.sub, m', pc);
  }

  lemma UnannounceKeeps(s: State, t: nat, s': State)
    requires Inv(s) && DoUnannounce(s, t, s')
    ensures Inv(s') && AllEvolve(s, s')
  {
    hide JobOk, WritersOk, BuilderOk, SlotsOk, CountsOk, Unannounce, Inv;
    assert Inv(s) && ThreadOk(s, s.threads[t]) by { InvThread(s, t); }
    match s.threads[t]
    case Leave(job) => UnannounceStep(s, t, s', job, SpinFull(job));
    case Drop(job) => UnannounceStep(s, t, s', job, Wait(job));
    case ThrowDrop(job) => UnannounceStep(s, t, s', job, Idle(Threw));
    case Landed(job) => UnannounceStep(s, t, s', job, Count(job));
    case _ =>
  }

  lemma InvThread(s: State, t: nat)
    requires Inv(s) && t in s.threads
    ensures ThreadOk(s, s.threads[t])
  {
  }

  /** Nothing is pending in a full array: nobody is adding to it, so it may be called shut. */
  lemma SpinPendingKeeps(s: State, t: nat, s': State)
    requires Inv(s) && DoSpinPending(s, t, s')
    ensures Inv(s') && AllEvolve(s, s')
  {
    var job := s.threads[t].job;
    var m := s.slots[job.sub].sub;
    assert ThreadOk(s, s.threads[t]) && FlagsOk(m);
    if m.pending == 0 {
      var m' := m.(shut := true);
      FlagsEvolve(s, s', job.sub, m');
      ThreadStays(s, s', s.threads[t]);
      forall u | u in s.threads
        ensures !Adding(s.threads[u], job.sub)
      {
        NonePending(s.threads, u, job.sub);
      }
      hide JobOk, WritersOk, BuilderOk, AllEvolve, SlotsOk, CountsOk;
      FlagsStep(s, t, s', job.sub, m', s'.threads[t]);
    } else {
      LocalStep(s, t, s', s'.threads[t]);
    }
  }

  lemma StoreFullKeeps(s: State, t: nat, s': State)
    requires Inv(s) && DoStoreFull(s, t, s')
    ensures Inv(s') && AllEvolve(s, s')
  {
    var job := s.threads[t].job;
    var m := s.slots[job.sub].sub;
    assert ThreadOk(s, s.threads[t]);
    var m' := m.(isFull := NO_PENDING_INSERTS);
    FlagsEvolve(s, s', job.sub, m');
    ThreadStays(s, s', s.threads[t]);
    hide JobOk, WritersOk, BuilderOk, AllEvolve, SlotsOk, CountsOk;
    FlagsStep(s, t, s', job.sub, m', s'.threads[t]);
  }

  lemma CountKeeps(s: State, t: nat, s': State)
    requires Inv(s) && DoCount(s, t, s')
    ensures Inv(s') && AllEvolve(s, s')
  {
    var job := s.threads[t].job;
    var m := s.slots[job.sub].sub;
    assert ThreadOk(s, s.threads[t]) && FlagsOk(m);
    hide JobOk, WritersOk, BuilderOk, SlotsOk, CountsOk;
    FlagsStep(s, t, s', job.sub, m.(numEntries := m.numEntries + 1), s'.threads[t]);
  }

  lemma MarkFullKeeps(s: State, t: nat, s': State, enough: bool)
    requires Inv(s) && DoMarkFull(s, t, s', enough)
    ensures Inv(s') && AllEvolve(s, s')
  {
    var job := s.threads[t].job;
    var m := s.slots[job.sub].sub;
    assert ThreadOk(s, s.threads[t]) && FlagsOk(m);
    hide JobOk, WritersOk, BuilderOk, SlotsOk, CountsOk;
    if enough {
      FlagsStep(s, t, s', job.sub, m.(isFull := NO_NEW_INSERTS), s'.threads[t]);
    } else {
      LocalStep(s, t, s', s'.threads[t]);
    }
  }

  lemma EraseCountKeeps(s: State, t: nat, s': State)
    requires Inv(s) && DoEraseCount(s, t, s')
    ensures Inv(s') && AllEvolve(s, s')
  {
    var job := s.threads[t].job;
    var m := s.slots[job.sub].sub;
    assert ThreadOk(s, s.threads[t]) && FlagsOk(m);
    hide JobOk, WritersOk, BuilderOk, SlotsOk, CountsOk;
    FlagsStep(s, t, s', job.sub, m.(numErases := m.numErases + 1), s'.threads[t]);
  }

  // ----- steps that change a cell

  /** Only one cell of one array differs. */
  ghost predicate CellOnly(s: State, s': State, job: Job, cell: Cell) {
    JobFits(s, job) && s' == WithCell(s, job, cell).(threads := s'.threads)
  }

  lemma CellEvolves(s: State, s': State, job: Job, cell: Cell)
    requires CellOnly(s, s', job, cell) && CellGrows(CellOf(s, job), cell, s.slots[job.sub].sub.shut)
    ensures AllEvolve(s, s')
  {
  }

  lemma CellKeys(s: State, s': State, job: Job, cell: Cell)
    requires CellOnly(s, s', job, cell) && CellGrows(CellOf(s, job), cell, s.slots[job.sub].sub.shut)
    requires SlotsOk(s)
    requires cell.Holds? ==> cell.key == job.key && JobOk(s, job)
    ensures forall i: nat | HasMap(s, i) :: KeysOk(s', i)
  {
    CellEvolves(s, s', job, cell);
    forall i: nat | HasMap(s, i)
      ensures KeysOk(s', i)
    {
      assert KeysOk(s, i);
      if i == job.sub && cell.Holds? {
        NewKey(s, s', job, cell);
      } else {
        KeysStay(s, s', i);
      }
    }
  }

  /** A key written behind settled cells, in an array after barred ones, is where it may be. */
  lemma NewKey(s: State, s': State, job: Job, cell: Cell)
    requires CellOnly(s, s', job, cell) && AllEvolve(s, s') && JobOk(s, job) && KeysOk(s, job.sub)
    requires cell == Holds(job.key)
    ensures KeysOk(s', job.sub)
  {
    var cells, cells' := s.slots[job.sub].sub.cells, s'.slots[job.sub].sub.cells;
    var at := CellIdx(s, job);
    forall c: nat | c < |cells'| && cells'[c].Holds?
      ensures Reached(s'.setup, cells', cells'[c].key, c) && BarredBefore(s', job.sub, cells'[c].key)
    {
      if c == at {
        ClearStays(s.setup, s.slots[job.sub].sub, s'.slots[job.sub].sub, job.key, job.n);
        BarredBeforeStays(s, s', job.sub, job.key);
      } else {
        var k := cells[c].key;
        assert Reached(s.setup, cells, k, c);
        var n: nat :| n < |cells| && ProbeAt(s.setup, k, n, |cells|) == c && Clear(s.setup, cells, k, n);
        ClearStays(s.setup, s.slots[job.sub].sub, s'.slots[job.sub].sub, k, n);
        BarredBeforeStays(s, s', job.sub, k);
      }
    }
  }

  lemma CellStep(s: State, t: nat, s': State, job: Job, cell: Cell, pc: Pc)
    requires Inv(s) && t in s.threads && CellOnly(s, s', job, cell) && s'.threads == s.threads[t := pc]
    requires CellGrows(CellOf(s, job), cell, s.slots[job.sub].sub.shut)
    requires cell.Holds? ==> cell.key == job.key && JobOk(s, job)
    requires ThreadOk(s', pc) && WritersOk(s') && !Building(pc)
    requires forall i: nat | HasMap(s, i) :: Counted(pc, i) == Counted(s.threads[t], i)
    requires forall i: nat | HasMap(s, i) && s.slots[i].sub.shut :: !Adding(pc, i)
    ensures Inv(s') && AllEvolve(s, s')
  {
    hide ThreadOk, KeysOk, WritersOk;
    CellEvolves(s, s', job, cell);
    CellKeys(s, s', job, cell);
    assert FlagsOk(s.slots[job.sub].sub);
    ArrayStep(s, t, s', pc);
  }

  lemma TryLockKeeps(s: State, t: nat, s': State)
    requires Inv(s) && DoTryLock(s, t, s')
    ensures Inv(s') && AllEvolve(s, s')
  {
    var job := s.threads[t].job;
    assert ThreadOk(s, s.threads[t]);
    assert Adding(s.threads[t], job.sub);
    if CellOf(s, job) == Empty {
      CellEvolves(s, s', job, Locked);
      ThreadStays(s, s', s.threads[t]);
      LockedWriters(s, t, s', job);
      hide JobOk, WritersOk, BuilderOk, AllEvolve, SlotsOk;
      CellStep(s, t, s', job, Locked, s'.threads[t]);
    } else {
      hide JobOk, WritersOk, BuilderOk, AllEvolve, SlotsOk;
      LocalStep(s, t, s', s'.threads[t]);
    }
  }

  lemma LockedWriters(s: State, t: nat, s': State, job: Job)
    requires WritersOk(s) && t in s.threads && CellOnly(s, s', job, Locked) && CellOf(s, job) == Empty
    requires s'.threads == s.threads[t := Write(job)]
    ensures WritersOk(s')
  {
    forall u: nat, i: nat, c: nat | WritesAt(s', u, i, c)
      ensures s'.slots[i].sub.cells[c] == Locked
      ensures u != t ==> WritesAt(s, u, i, c) && !(i == job.sub && c == CellIdx(s, job))
      ensures u == t ==> i == job.sub && c == CellIdx(s, job)
    {
      if u != t { assert WritesAt(s, u, i, c); }
    }
  }

  /** The end of a write unlocks the writer's own cell and no other writer's. */
  lemma UnlockedWriters(s: State, t: nat, s': State, job: Job, cell: Cell, pc: Pc)
    requires WritersOk(s) && t in s.threads && s.threads[t] == Write(job) && CellOnly(s, s', job, cell)
    requires s'.threads == s.threads[t := pc] && !pc.Write?
    ensures WritersOk(s')
  {
    assert WritesAt(s, t, job.sub, CellIdx(s, job));
    forall u: nat, i: nat, c: nat | WritesAt(s', u, i, c)
      ensures s'.slots[i].sub.cells[c] == Locked && WritesAt(s, u, i, c)
    {
      assert WritesAt(s, u, i, c);
    }
  }

  lemma WriteKeeps(s: State, t: nat, s': State)
    requires Inv(s) && DoWrite(s, t, s')
    ensures Inv(s') && AllEvolve(s, s')
  {
    var job := s.threads[t].job;
    assert ThreadOk(s, s.threads[t]) && Adding(s.threads[t], job.sub);
    assert WritesAt(s, t, job.sub, CellIdx(s, job));
    CellEvolves(s, s', job, Holds(job.key));
    ThreadStays(s, s', s.threads[t]);
    UnlockedWriters(s, t, s', job, Holds(job.key), s'.threads[t]);
    hide JobOk, WritersOk, BuilderOk, AllEvolve, SlotsOk, CountsOk;
    CellStep(s, t, s', job, Holds(job.key), s'.threads[t]);
  }

  lemma ThrowKeeps(s: State, t: nat, s': State)
    requires Inv(s) && DoThrow(s, t, s')
    ensures Inv(s') && AllEvolve(s, s')
  {
    var job := s.threads[t].job;
    assert ThreadOk(s, s.threads[t]) && Adding(s.threads[t], job.sub);
    assert WritesAt(s, t, job.sub, CellIdx(s, job));
    CellEvolves(s, s', job, Empty);
    ThreadStays(s, s', s.threads[t]);
    UnlockedWriters(s, t, s', job, Empty, s'.threads[t]);
    hide JobOk, WritersOk, BuilderOk, AllEvolve, SlotsOk, CountsOk;
    CellStep(s, t, s', job, Empty, s'.threads[t]);
  }

  lemma ErasedWriters(s: State, t: nat, s': State, job: Job, pc: Pc)
    requires WritersOk(s) && t in s.threads && CellOnly(s, s', job, Erased) && CellOf(s, job) != Locked
    requires s'.threads == s.threads[t := pc] && !pc.Write?
    ensures WritersOk(s')
  {
    forall u: nat, i: nat, c: nat | WritesAt(s', u, i, c)
      ensures s'.slots[i].sub.cells[c] == Locked && WritesAt(s, u, i, c)
    {
      assert WritesAt(s, u, i, c);
    }
  }

  lemma EraseSwapKeeps(s: State, t: nat, s': State)
    requires Inv(s) && DoEraseSwap(s, t, s')
    ensures Inv(s') && AllEvolve(s, s')
  {
    hide JobOk, WritersOk, BuilderOk, SlotsOk, CountsOk, ProbeAt;
    var job := s.threads[t].job;
    assert ThreadOk(s, s.threads[t]);
    if CellOf(s, job) == Holds(job.key) {
      ErasedWriters(s, t, s', job, s'.threads[t]);
      CellStep(s, t, s', job, Erased, s'.threads[t]);
    } else {
      AfterMissOk(s, job);
      LocalStep(s, t, s', s'.threads[t]);
    }
  }

  // ----- steps that add an array

  lemma SlotsEvolve(s: State, s': State)
    requires s'.setup == s.setup && |s'.slots| == |s.slots| && s.published <= s'.published
    requires forall i: nat | HasMap(s, i) :: s'.slots[i] == s.slots[i]
    ensures AllEvolve(s, s')
    ensures forall i: nat | HasMap(s, i) && KeysOk(s, i) :: KeysOk(s', i)
  {
    forall i: nat | HasMap(s, i) && KeysOk(s, i)
      ensures KeysOk(s', i)
    {
      KeysStay(s, s', i);
    }
  }

  lemma SameWriters(s: State, t: nat, s': State, pc: Pc)
    requires WritersOk(s) && SlotsOk(s) && ThreadsOk(s) && t in s.threads && s'.threads == s.threads[t := pc] && !pc.Write?
    requires s'.setup == s.setup && |s'.slots| == |s.slots| && forall i: nat | HasMap(s, i) :: s'.slots[i] == s.slots[i]
    ensures WritersOk(s')
  {
    forall u: nat, i: nat, c: nat | WritesAt(s', u, i, c)
      ensures WritesAt(s, u, i, c) && s'.slots[i].sub.cells[c] == Locked
    {
      assert ThreadOk(s, s.threads[u]);
      assert WritesAt(s, u, i, c);
    }
  }

  /** A slot that held no array changes; nobody can have been working on it. */
  lemma SlotStep(s: State, t: nat, s': State, pc: Pc)
    requires Inv(s) && t in s.threads && s'.threads == s.threads[t := pc]
    requires s'.setup == s.setup && |s'.slots| == |s.slots| && s.published <= s'.published
    requires forall i: nat | HasMap(s, i) :: s'.slots[i] == s.slots[i]
    requires SlotsOk(s') && BuilderOk(s') && ThreadOk(s', pc) && !pc.Write?
    requires forall i: nat :: !Counted(pc, i) && !Adding(pc, i) && !Counted(s.threads[t], i)
    requires forall i: nat | HasMap(s', i) && !HasMap(s, i) :: s'.slots[i].sub.pending == 0 && !s'.slots[i].sub.shut
    ensures Inv(s') && AllEvolve(s, s')
  {
    hide ThreadOk, KeysOk;
    SlotsEvolve(s, s');
    SameWriters(s, t, s', pc);
    forall u | u in s'.threads
      ensures ThreadOk(s', s'.threads[u])
    {
      if u != t { ThreadStays(s, s', s.threads[u]); }
    }
    forall i: nat | HasMap(s', i)
      ensures s'.slots[i].sub.pending == |Pending(s'.threads, i)|
      ensures s'.slots[i].sub.shut ==> forall u | u in s'.threads :: !Adding(s'.threads[u], i)
    {
      PendingChange(s.threads, t, pc, i);
      if !HasMap(s, i) { NobodyThere(s, i); }
    }
  }

  lemma NobodyThere(s: State, i: nat)
    requires ThreadsOk(s) && !HasMap(s, i)
    ensures Pending(s.threads, i) == {}
  {
    forall u | u in s.threads
      ensures !Counted(s.threads[u], i)
    {
      assert ThreadOk(s, s.threads[u]);
    }
  }

  lemma NullBehind(s: State, i: nat)
    requires SlotsOk(s) && i <= s.published && i < |s.slots| && s.slots[i] == Null
    ensures i == s.published
  {
    assert !HasMap(s, i);
  }

  lemma ClaimKeeps(s: State, t: nat, s': State)
    requires Inv(s) && DoClaim(s, t, s')
    ensures Inv(s') && AllEvolve(s, s')
  {
    hide WritersOk, CountsOk, AllEvolve, KeysOk, BarredBefore;
    assert ThreadOk(s, s.threads[t]);
    var next := s.threads[t].next;
    if next < |s.slots| && s.setup.canGrow && s.slots[next] == Null {
      NullBehind(s, next);
      SlotsEvolve(s, s');
      ThreadStays(s, s', s.threads[t]);
      SlotStep(s, t, s', s'.threads[t]);
    } else {
      LocalStep(s, t, s', s'.threads[t]);
    }
  }

  lemma BuildKeeps(s: State, t: nat, s': State, capacity: nat)
    requires Inv(s) && DoBuild(s, t, s', capacity)
    ensures Inv(s') && AllEvolve(s, s')
  {
    hide WritersOk, CountsOk;
    assert ThreadOk(s, s.threads[t]);
    SlotsEvolve(s, s');
    ThreadStays(s, s', s.threads[t]);
    SlotStep(s, t, s', s'.threads[t]);
  }

  lemma PublishKeeps(s: State, t: nat, s': State)
    requires Inv(s) && DoPublish(s, t, s')
    ensures Inv(s') && AllEvolve(s, s')
  {
    hide WritersOk, CountsOk;
    assert ThreadOk(s, s.threads[t]);
    SlotsEvolve(s, s');
    ThreadStays(s, s', s.threads[t]);
    SlotStep(s, t, s', s'.threads[t]);
  }

  // ----- every step

  lemma NextKeeps(s: State, t: nat, a: Action, s': State)
    requires Inv(s) && Next(s, t, a, s')
    ensures Inv(s') && AllEvolve(s, s')
  {
    hide Inv, Start, DoLook, DoAnnounce, DoTestFull, DoUnannounce, DoSpinFull, DoSpinPending, DoStoreFull, DoRecheck, DoAgain, DoTryLock,
         DoWrite, DoThrow, DoCount, DoMarkFull, DoWait, DoCompare, DoClaim, DoBuild, DoPublish, DoAwait, StartErase, DoEraseLook,
         DoEraseSwap, DoEraseCount;
    match a
    case ToStart(key) => StartKeeps(s, t, s', key);
    case ToLook => LookKeeps(s, t, s');
    case ToAnnounce => AnnounceKeeps(s, t, s');
    case ToTestFull => TestFullKeeps(s, t, s');
    case ToUnannounce => UnannounceKeeps(s, t, s');
    case ToSpinFull => SpinFullKeeps(s, t, s');
    case ToSpinPending => SpinPendingKeeps(s, t, s');
    case ToStoreFull => StoreFullKeeps(s, t, s');
    case ToRecheck => RecheckKeeps(s, t, s');
    case ToAgain => AgainKeeps(s, t, s');
    case ToTryLock => TryLockKeeps(s, t, s');
    case ToWrite => WriteKeeps(s, t, s');
    case ToThrow => ThrowKeeps(s, t, s');
    case ToCount => CountKeeps(s, t, s');
    case ToMarkFull(enough) => MarkFullKeeps(s, t, s', enough);
    case ToWait => WaitKeeps(s, t, s');
    case ToCompare => CompareKeeps(s, t, s');
    case ToClaim => ClaimKeeps(s, t, s');
    case ToBuild(capacity) => BuildKeeps(s, t, s', capacity);
    case ToPublish => PublishKeeps(s, t, s');
    case ToAwait => AwaitKeeps(s, t, s');
    case ToStartErase(key) => StartEraseKeeps(s, t, s', key);
    case ToEraseLook => EraseLookKeeps(s, t, s');
    case ToEraseSwap => EraseSwapKeeps(s, t, s');
    case ToEraseCount => EraseCountKeeps(s, t, s');
  }

  lemma InitHolds(s: State)
    requires Init(s)
    ensures Inv(s)
  {
    forall i: nat | HasMap(s, i)
      ensures i == 0 && s.slots[i].sub.pending == |Pending(s.threads, i)|
    {
      assert Pending(s.threads, i) == {};
    }
  }
}
