/**
 Finding and erasing a key while others insert, erase and add arrays. A find only reads, one cell or the number of arrays at a time,
 so it is a second machine that looks at the states of a run, at times of its own.
 */
module HashMapLookup {
  import opened HashMapState
  import opened HashMapProofs
  import opened HashMapRuns

  /** n counts the cells of array sub that were seen; the number of arrays is only read when the first one lacks the key. */
  datatype Finder = Probe(sub: nat, n: nat, limit: nat) | CountMaps | Found(sub: nat, idx: nat) | Missed

  function AfterLack(sub: nat, limit: nat): Finder {
    if sub + 1 < limit then Probe(sub + 1, 0, limit) else if sub == 0 then CountMaps else Missed
  }

  ghost predicate FindStep(s: State, key: int, f: Finder, f': Finder) {
    match f
    case Probe(sub, n, limit) =>
      && HasMap(s, sub) && n < |s.slots[sub].sub.cells|
      && var cells := s.slots[sub].sub.cells;
         var idx := ProbeAt(s.setup, key, n, |cells|);
         f' == if cells[idx] == Holds(key) then Found(sub, idx)
               else if cells[idx] == Empty || n + 1 >= |cells| then AfterLack(sub, limit)
               else Probe(sub, n + 1, limit)
    case CountMaps => f' == if 1 < s.published then Probe(1, 0, s.published) else Missed
    case Found(_, _) => false
    case Missed => false
  }

  /** A find of key during a run: its k-th read happens in the state at times[k]. */
  ghost predicate IsFind(states: seq<State>, key: int, finders: seq<Finder>, times: seq<nat>) {
    && |finders| == |times| + 1 && 0 < |times| && finders[0] == Probe(0, 0, 1)
    && (forall k | 0 <= k < |times| :: times[k] < |states|)
    && (forall k | 0 < k < |times| :: times[k - 1] <= times[k])
    && (forall k | 0 <= k < |times| :: FindStep(states[times[k]], key, finders[k], finders[k + 1]))
  }

  predicate LiveAt(s: State, key: int, i: nat, c: nat) {
    HasMap(s, i) && c < |s.slots[i].sub.cells| && s.slots[i].sub.cells[c] == Holds(key)
  }

  // ----- an array that is not published yet holds nothing, and is open

  ghost predicate NewIsEmpty(s: State) {
    HasMap(s, s.published) ==>
      var m := s.slots[s.published].sub;
      m.isFull == OPEN && forall c | 0 <= c < |m.cells| :: m.cells[c] == Empty
  }

  lemma NextNewIsEmpty(s: State, t: nat, a: Action, s': State)
    requires Inv(s) && NewIsEmpty(s) && Next(s, t, a, s')
    ensures NewIsEmpty(s')
  {
    hide CountsOk, ThreadsOk, WritersOk, Clear, BarredBefore, KeysOk, ProbeAt;
    ThreadKnown(s, t);
  }

  lemma ThreadKnown(s: State, t: nat)
    requires Inv(s) && t in s.threads
    ensures ThreadOk(s, s.threads[t])
  {
  }

  lemma {:induction false} RunNewIsEmpty(states: seq<State>, moves: seq<Move>, i: nat)
    requires IsRun(states, moves) && i < |states|
    ensures NewIsEmpty(states[i])
  {
    hide Inv, Next, NewIsEmpty;
    if i == 0 {
      InitNewIsEmpty(states[0]);
    } else {
      RunKeeps(states, moves, i - 1);
      RunNewIsEmpty(states, moves, i - 1);
      NextNewIsEmpty(states[i - 1], moves[i - 1].thread, moves[i - 1].action, states[i]);
    }
  }

  lemma InitNewIsEmpty(s: State)
    requires Init(s)
    ensures NewIsEmpty(s)
  {
  }

  lemma LiveIsPublished(s: State, key: int, i: nat, c: nat)
    requires SlotsOk(s) && NewIsEmpty(s) && LiveAt(s, key, i, c)
    ensures i < s.published
  {
  }

  // ----- where a find is

  /** It has not passed the cell of the key, which is p probes into array i behind cells that other keys have taken. */
  ghost predicate FinderOk(s: State, key: int, i: nat, c: nat, p: nat, f: Finder) {
    && HasMap(s, i) && p < |s.slots[i].sub.cells| && ProbeAt(s.setup, key, p, |s.slots[i].sub.cells|) == c
    && Clear(s.setup, s.slots[i].sub.cells, key, p)
    && match f
       case Probe(sub, n, limit) => sub <= i && (if sub == 0 then limit == 1 else i < limit) && (sub == i ==> n <= p)
       case CountMaps => 0 < i
       case Found(sub, idx) => sub == i && idx == c
       case Missed => false
  }

  lemma FinderStays(s: State, s': State, key: int, i: nat, c: nat, p: nat, f: Finder)
    requires AllEvolve(s, s') && FinderOk(s, key, i, c, p, f)
    ensures FinderOk(s', key, i, c, p, f)
  {
    ClearStays(s.setup, s.slots[i].sub, s'.slots[i].sub, key, p);
  }

  lemma StepOk(s: State, key: int, i: nat, c: nat, p: nat, f: Finder, f': Finder)
    requires SlotsOk(s) && LiveAt(s, key, i, c) && i < s.published
    requires FinderOk(s, key, i, c, p, f) && FindStep(s, key, f, f')
    ensures FinderOk(s, key, i, c, p, f')
  {
    hide SlotsOk, ProbeAt;
    if f.Probe? {
      var cells := s.slots[f.sub].sub.cells;
      var idx := ProbeAt(s.setup, key, f.n, |cells|);
      if cells[idx] == Holds(key) { LiveOnce(s, key, i, c, f.sub, idx); }
      if f.sub == i && f.n < p { assert SettledAt(s.setup, cells, key, f.n); }
    }
  }

  lemma {:induction false} TimesOrdered(times: seq<nat>, a: nat, b: nat)
    requires forall k | 0 < k < |times| :: times[k - 1] <= times[k]
    requires a <= b < |times|
    ensures times[a] <= times[b]
  {
    if a < b { TimesOrdered(times, a, b - 1); }
  }

  /** A key that is live at two times has been live in the same cell in between. */
  lemma LiveBetween(s: State, s': State, s'': State, key: int, i: nat, c: nat)
    requires AllEvolve(s, s') && AllEvolve(s', s'') && LiveAt(s, key, i, c) && LiveAt(s'', key, i, c)
    ensures LiveAt(s', key, i, c)
  {
    assert CellGrows(s.slots[i].sub.cells[c], s'.slots[i].sub.cells[c], s.slots[i].sub.shut);
    assert CellGrows(s'.slots[i].sub.cells[c], s''.slots[i].sub.cells[c], s'.slots[i].sub.shut);
  }

  lemma {:induction false} FindOk(states: seq<State>, moves: seq<Move>, key: int, finders: seq<Finder>, times: seq<nat>,
                                  i: nat, c: nat, p: nat, k: nat)
    requires IsRun(states, moves) && IsFind(states, key, finders, times) && k < |times|
    requires LiveAt(states[times[0]], key, i, c) && LiveAt(states[times[|times| - 1]], key, i, c)
    requires FinderOk(states[times[0]], key, i, c, p, finders[0])
    ensures FinderOk(states[times[k]], key, i, c, p, finders[k + 1])
  {
    hide IsRun, Inv, AllEvolve, FinderOk, FindStep, LiveAt;
    TimesOrdered(times, 0, k);
    TimesOrdered(times, k, |times| - 1);
    RunEvolves(states, moves, times[0], times[k]);
    RunEvolves(states, moves, times[k], times[|times| - 1]);
    var s := states[times[k]];
    LiveBetween(states[times[0]], s, states[times[|times| - 1]], key, i, c);
    RunKeeps(states, moves, times[k]);
    RunNewIsEmpty(states, moves, times[k]);
    SlotsSound(s);
    LiveIsPublished(s, key, i, c);
    if k > 0 {
      FindOk(states, moves, key, finders, times, i, c, p, k - 1);
      RunEvolves(states, moves, times[k - 1], times[k]);
      FinderStays(states[times[k - 1]], s, key, i, c, p, finders[k]);
    }
    StepOk(s, key, i, c, p, finders[k], finders[k + 1]);
  }

  lemma SlotsSound(s: State)
    requires Inv(s)
    ensures SlotsOk(s)
  {
  }

  /** A find whose key is live when it begins and has not been erased when it ends answers with the key's cell. */
  lemma FindFinds(states: seq<State>, moves: seq<Move>, key: int, finders: seq<Finder>, times: seq<nat>, i: nat, c: nat)
    requires IsRun(states, moves) && IsFind(states, key, finders, times)
    requires finders[|times|].Found? || finders[|times|].Missed?
    requires LiveAt(states[times[0]], key, i, c) && LiveAt(states[times[|times| - 1]], key, i, c)
    ensures finders[|times|] == Found(i, c)
  {
    var p := ProbesOf(states, moves, times[0], key, i, c);
    FindOk(states, moves, key, finders, times, i, c, p, |times| - 1);
  }

  /** What a find answers with held the key when it was read. */
  lemma FoundWasLive(states: seq<State>, key: int, finders: seq<Finder>, times: seq<nat>, i: nat, c: nat)
    requires IsFind(states, key, finders, times) && finders[|times|] == Found(i, c)
    ensures LiveAt(states[times[|times| - 1]], key, i, c)
  {
    var k := |times| - 1;
    assert FindStep(states[times[k]], key, finders[k], finders[k + 1]);
  }

  // ----- what a miss means

  ghost predicate NowhereLive(s: State, key: int) {
    forall i: nat, c: nat :: !LiveAt(s, key, i, c)
  }

  /** The step that erases a key adds no other. */
  lemma ErasesOne(s: State, t: nat, a: Action, s': State, key: int, i: nat, c: nat, j: nat, d: nat)
    requires Next(s, t, a, s') && LiveAt(s, key, i, c) && !LiveAt(s', key, i, c) && LiveAt(s', key, j, d)
    ensures LiveAt(s, key, j, d)
  {
    hide ProbeAt;
  }

  /** When a key is erased, it is live nowhere. */
  lemma {:induction false} GoneSometime(states: seq<State>, moves: seq<Move>, a: nat, b: nat, key: int, i: nat, c: nat)
    returns (k: nat)
    requires IsRun(states, moves) && a <= b < |states| && LiveAt(states[a], key, i, c) && !LiveAt(states[b], key, i, c)
    ensures a < k <= b && NowhereLive(states[k], key)
  {
    hide Inv, Next, Init, LiveAt;
    if !LiveAt(states[b - 1], key, i, c) {
      k := GoneSometime(states, moves, a, b - 1, key, i, c);
      return;
    }
    k := b;
    forall j: nat, d: nat
      ensures !LiveAt(states[b], key, j, d)
    {
      if LiveAt(states[b], key, j, d) {
        ErasesOne(states[b - 1], moves[b - 1].thread, moves[b - 1].action, states[b], key, i, c, j, d);
        OneLive(states, moves, b - 1, key, i, c, j, d);
      }
    }
  }

  lemma OneLive(states: seq<State>, moves: seq<Move>, n: nat, key: int, i: nat, c: nat, j: nat, d: nat)
    requires IsRun(states, moves) && n < |states| && LiveAt(states[n], key, i, c) && LiveAt(states[n], key, j, d)
    ensures i == j && c == d
  {
    hide IsRun;
    KeyLiveOnce(states, moves, n, key, i, c, j, d);
  }

  /** A find that misses overlaps a state in which the key was live nowhere. */
  lemma MissIsRight(states: seq<State>, moves: seq<Move>, key: int, finders: seq<Finder>, times: seq<nat>) returns (k: nat)
    requires IsRun(states, moves) && IsFind(states, key, finders, times) && finders[|times|].Missed?
    ensures times[0] <= k <= times[|times| - 1] && k < |states| && NowhereLive(states[k], key)
  {
    hide IsRun, FindStep, LiveAt;
    var last := |times| - 1;
    TimesOrdered(times, 0, last);
    k := times[0];
    if !NowhereLive(states[k], key) {
      var i: nat, c: nat :| LiveAt(states[k], key, i, c);
      if LiveAt(states[times[last]], key, i, c) { FindFinds(states, moves, key, finders, times, i, c); }
      k := GoneSometime(states, moves, k, times[last], key, i, c);
    }
  }

  // ----- erasing

  predicate Erasing(pc: Pc, key: int) {
    (pc.EraseLook? || pc.EraseSwap?) && pc.job.key == key
  }

  /** An erase of a live key has not passed its cell, and swaps nowhere else. */
  ghost predicate EraserOk(s: State, key: int, i: nat, c: nat, p: nat, pc: Pc) {
    && HasMap(s, i) && p < |s.slots[i].sub.cells| && ProbeAt(s.setup, key, p, |s.slots[i].sub.cells|) == c
    && Clear(s.setup, s.slots[i].sub.cells, key, p)
    && Erasing(pc, key)
    && var job := pc.job;
       && job.sub <= i < job.limit && (job.sub == i ==> job.n <= p)
       && (pc.EraseSwap? ==> JobFits(s, job) && job.sub == i && CellIdx(s, job) == c)
  }

  lemma EraserStays(s: State, s': State, key: int, i: nat, c: nat, p: nat, pc: Pc)
    requires AllEvolve(s, s') && EraserOk(s, key, i, c, p, pc)
    ensures EraserOk(s', key, i, c, p, pc)
  {
    hide ProbeAt;
    ClearStays(s.setup, s.slots[i].sub, s'.slots[i].sub, key, p);
  }

  /** A step of the erase itself: it goes on, or erases the key. */
  lemma EraserStep(s: State, t: nat, a: Action, s': State, key: int, i: nat, c: nat, p: nat)
    requires t in s.threads && t in s'.threads
    requires Inv(s) && Next(s, t, a, s') && LiveAt(s, key, i, c) && EraserOk(s, key, i, c, p, s.threads[t])
    ensures
      || (EraserOk(s, key, i, c, p, s'.threads[t]) && LiveAt(s', key, i, c))
      || (a.ToEraseSwap? && s'.threads[t].EraseCount? && !LiveAt(s', key, i, c))
  {
    hide Inv, Next, DoEraseLook, DoEraseSwap, LiveAt, ProbeAt, Clear;
    EraserActs(s, t, a, s', key);
    if a.ToEraseLook? { EraserLooks(s, t, s', key, i, c, p); } else { EraserSwaps(s, t, s', key, i, c, p); }
  }

  lemma EraserActs(s: State, t: nat, a: Action, s': State, key: int)
    requires t in s.threads && Erasing(s.threads[t], key) && Next(s, t, a, s')
    ensures (a.ToEraseLook? && DoEraseLook(s, t, s')) || (a.ToEraseSwap? && DoEraseSwap(s, t, s'))
  {
  }

  lemma EraserLooks(s: State, t: nat, s': State, key: int, i: nat, c: nat, p: nat)
    requires t in s.threads && t in s'.threads && Inv(s) && DoEraseLook(s, t, s')
    requires LiveAt(s, key, i, c) && EraserOk(s, key, i, c, p, s.threads[t])
    ensures EraserOk(s, key, i, c, p, s'.threads[t]) && LiveAt(s', key, i, c)
  {
    hide Inv, ProbeAt, Clear;
    SlotsSound(s);
    var job := s.threads[t].job;
    var cells := s.slots[job.sub].sub.cells;
    if CellOf(s, job) == Holds(key) {
      LiveOnce(s, key, i, c, job.sub, CellIdx(s, job));
    } else if job.sub == i && job.n < p {
      SettledThere(s.setup, cells, key, p, job.n);
    }
  }

  lemma EraserSwaps(s: State, t: nat, s': State, key: int, i: nat, c: nat, p: nat)
    requires t in s.threads && t in s'.threads && DoEraseSwap(s, t, s')
    requires LiveAt(s, key, i, c) && EraserOk(s, key, i, c, p, s.threads[t])
    ensures s'.threads[t].EraseCount? && !LiveAt(s', key, i, c)
  {
    hide ProbeAt, Clear;
  }

  lemma SettledThere(setup: Setup, cells: seq<Cell>, key: int, p: nat, n: nat)
    requires Clear(setup, cells, key, p) && n < p
    ensures n < |cells| && Settled(cells[ProbeAt(setup, key, n, |cells|)], key)
  {
    assert SettledAt(setup, cells, key, n);
  }

  /** A step of another thread leaves a thread alone. */
  lemma OthersStay(s: State, t: nat, a: Action, s': State, u: nat)
    requires Next(s, t, a, s') && u in s.threads && u != t
    ensures u in s'.threads && s'.threads[u] == s.threads[u]
  {
    hide ProbeAt;
  }

  /** Thread t began to erase the key at the a-th step and is still at it in the states before the b-th. */
  ghost predicate IsErase(states: seq<State>, moves: seq<Move>, t: nat, key: int, a: nat, b: nat) {
    && IsRun(states, moves) && a + 1 < b < |states| && moves[a] == Move(t, ToStartErase(key))
    && forall k | a < k < b :: t in states[k].threads && Erasing(states[k].threads[t], key)
  }

  /** Some thread other than t has erased the cell meanwhile. */
  ghost predicate ErasedByAnother(states: seq<State>, moves: seq<Move>, t: nat, key: int, i: nat, c: nat, a: nat, b: nat)
    requires |states| == |moves| + 1 && b < |states|
  {
    exists k: nat :: a < k < b && moves[k - 1].thread != t && LiveAt(states[k - 1], key, i, c) && !LiveAt(states[k], key, i, c)
  }

  lemma EraseStarts(s: State, t: nat, s': State, key: int, i: nat, c: nat, p: nat)
    requires SlotsOk(s) && StartErase(s, t, s', key) && LiveAt(s, key, i, c) && i < s.published
    requires p < |s.slots[i].sub.cells| && ProbeAt(s.setup, key, p, |s.slots[i].sub.cells|) == c
    requires Clear(s.setup, s.slots[i].sub.cells, key, p)
    ensures EraserOk(s', key, i, c, p, s'.threads[t]) && LiveAt(s', key, i, c)
  {
    hide ProbeAt;
  }

  /** As long as nobody else erases the key, the erase is on its way to the key's cell. */
  lemma {:induction false} EraserRuns(states: seq<State>, moves: seq<Move>, t: nat, key: int, a: nat, b: nat, i: nat, c: nat, p: nat,
                                      k: nat)
    requires IsErase(states, moves, t, key, a, b) && a < k < b && LiveAt(states[a], key, i, c)
    requires p < |states[a].slots[i].sub.cells| && ProbeAt(states[a].setup, key, p, |states[a].slots[i].sub.cells|) == c
    requires Clear(states[a].setup, states[a].slots[i].sub.cells, key, p)
    ensures
      || (EraserOk(states[k], key, i, c, p, states[k].threads[t]) && LiveAt(states[k], key, i, c))
      || (ErasedByAnother(states, moves, t, key, i, c, a, b) && !LiveAt(states[k], key, i, c))
  {
    hide Inv, Init, AllEvolve, EraserOk, LiveAt, ProbeAt, Clear;
    var j := k - 1;
    var s, s', u := states[j], states[k], moves[j].thread;
    assert Next(s, u, moves[j].action, s');
    RunKeeps(states, moves, j);
    RunEvolves(states, moves, j, k);
    if j == a {
      RunNewIsEmpty(states, moves, a);
      SlotsSound(s);
      LiveIsPublished(s, key, i, c);
      EraseStarts(s, t, s', key, i, c, p);
    } else {
      EraserRuns(states, moves, t, key, a, b, i, c, p, j);
      if !LiveAt(s, key, i, c) {
        RunEvolves(states, moves, a, j);
        StaysGone(states[a], s, s', key, i, c);
      } else if u == t {
        EraserStep(s, t, moves[j].action, s', key, i, c, p);
        if LiveAt(s', key, i, c) { EraserStays(s, s', key, i, c, p, s'.threads[t]); }
      } else if LiveAt(s', key, i, c) {
        OthersStay(s, u, moves[j].action, s', t);
        EraserStays(s, s', key, i, c, p, s.threads[t]);
      }
    }
  }

  lemma StaysGone(s: State, s': State, s'': State, key: int, i: nat, c: nat)
    requires AllEvolve(s, s') && AllEvolve(s', s'') && LiveAt(s, key, i, c) && !LiveAt(s', key, i, c)
    ensures !LiveAt(s'', key, i, c)
  {
    assert CellGrows(s.slots[i].sub.cells[c], s'.slots[i].sub.cells[c], s.slots[i].sub.shut);
    assert CellGrows(s'.slots[i].sub.cells[c], s''.slots[i].sub.cells[c], s'.slots[i].sub.shut);
  }

  /** The step with which an erase of a live key stops erasing. */
  lemma EraseEnds(s: State, u: nat, a: Action, s': State, t: nat, key: int, i: nat, c: nat, p: nat)
    requires Inv(s) && Next(s, u, a, s') && LiveAt(s, key, i, c) && t in s.threads && EraserOk(s, key, i, c, p, s.threads[t])
    requires t in s'.threads && !Erasing(s'.threads[t], key)
    ensures s'.threads[t].EraseCount? && !LiveAt(s', key, i, c)
  {
    hide Inv, Next, LiveAt;
    if u != t { OthersStay(s, u, a, s', t); }
    EraserStep(s, t, a, s', key, i, c, p);
  }

  lemma ProbesOf(states: seq<State>, moves: seq<Move>, a: nat, key: int, i: nat, c: nat) returns (p: nat)
    requires IsRun(states, moves) && a < |states| && LiveAt(states[a], key, i, c)
    ensures p < |states[a].slots[i].sub.cells| && ProbeAt(states[a].setup, key, p, |states[a].slots[i].sub.cells|) == c
    ensures Clear(states[a].setup, states[a].slots[i].sub.cells, key, p)
  {
    hide IsRun, ProbeAt, Clear;
    LookupFinds(states, moves, a, i, c, key);
    var cells := states[a].slots[i].sub.cells;
    p :| p < |cells| && ProbeAt(states[a].setup, key, p, |cells|) == c && Clear(states[a].setup, cells, key, p);
  }

  /**
   An erase that began while its key was live ends with the key's cell erased: it reports success, or somebody else
   erased the cell meanwhile.
   */
  lemma EraseErases(states: seq<State>, moves: seq<Move>, t: nat, key: int, a: nat, b: nat, i: nat, c: nat)
    requires IsErase(states, moves, t, key, a, b) && LiveAt(states[a], key, i, c)
    requires t in states[b].threads && !Erasing(states[b].threads[t], key)
    ensures !LiveAt(states[b], key, i, c)
    ensures states[b].threads[t].EraseCount? || ErasedByAnother(states, moves, t, key, i, c, a, b)
  {
    hide Inv, Init, Next, AllEvolve, ErasedByAnother, EraserOk, Erasing, ProbeAt, Clear;
    var p := ProbesOf(states, moves, a, key, i, c);
    hide LiveAt;
    EraserRuns(states, moves, t, key, a, b, i, c, p, b - 1);
    RunKeeps(states, moves, b - 1);
    RunEvolves(states, moves, a, b - 1);
    RunEvolves(states, moves, b - 1, b);
    if LiveAt(states[b - 1], key, i, c) {
      EraseEnds(states[b - 1], moves[b - 1].thread, moves[b - 1].action, states[b], t, key, i, c, p);
    } else {
      StaysGone(states[a], states[b - 1], states[b], key, i, c);
    }
  }
}
