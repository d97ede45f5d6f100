/**
 The skip list's node recycler: nodes that were unlinked wait until the last accessor leaves, and are then
 destroyed outside the lock, while new accessors may already be at work.
 */
module Recycler {

  datatype Lock = Free | HeldBy(thread: nat)

  /** Where an accessor stands: in the list, inside add, inside releaseRef, or outside. */
  datatype Pc =
    | Out
    | Live
    | Adding(node: nat)
    | Pushing(node: nat)
    | Dirtying
    | Added
    | ReadDirty
    | ReadRefs
    | FastRelease
    | SlowRelease
    | Releasing
    | Swapping
    | Cleaning(mine: seq<nat>)
    | Unlocking(mine: seq<nat>)
    | Destroying(mine: seq<nat>)

  /** Where a node is after it was unlinked. */
  datatype Place = With(thread: nat) | Waiting | TakenBy(thread: nat) | Gone

  /**
   linked holds the nodes that links lead to; reach, for every accessor, the nodes that were linked at some time since
   it came; home, for every node that was ever unlinked, where it is.
   */
  datatype State = State(nodes: seq<nat>, refs: int, dirty: bool, lock: Lock, threads: map<nat, Pc>,
                         linked: set<nat>, destroyed: set<nat>, reach: map<nat, set<nat>>, home: map<nat, Place>)

  /** The accessor is counted: from addRef until the reference count goes down for it. */
  predicate Counted(pc: Pc) {
    match pc
    case Out => false
    case Swapping => false
    case Cleaning(_) => false
    case Unlocking(_) => false
    case Destroying(_) => false
    case _ => true
  }

  predicate HoldsLock(pc: Pc) {
    match pc
    case Pushing(_) => true
    case Dirtying => true
    case Added => true
    case Releasing => true
    case Swapping => true
    case Cleaning(_) => true
    case Unlocking(_) => true
    case _ => false
  }

  function Mine(pc: Pc): seq<nat> {
    match pc
    case Cleaning(mine) => mine
    case Unlocking(mine) => mine
    case Destroying(mine) => mine
    case _ => []
  }

  predicate Carries(pc: Pc, n: nat) {
    match pc
    case Adding(node) => node == n
    case Pushing(node) => node == n
    case _ => false
  }

  function WithPc(s: State, t: nat, pc: Pc): State {
    s.(threads := s.threads[t := pc])
  }

  predicate At(s: State, t: nat, pc: Pc) {
    t in s.threads && t in s.reach && s.threads[t] == pc
  }

  // ----- one accessor's next step

  ghost predicate AddRef(s: State, t: nat, s': State) {
    At(s, t, Out) && s' == WithPc(s, t, Live).(refs := s.refs + 1, reach := s.reach[t := s.linked])
  }

  /** A new node becomes part of the list, for all accessors to see. */
  ghost predicate Link(s: State, t: nat, s': State, n: nat) {
    && At(s, t, Live) && n !in s.linked && n !in s.home
    && s' == s.(linked := s.linked + {n},
                reach := map u | u in s.reach :: if u in s.threads && Counted(s.threads[u]) then s.reach[u] + {n} else s.reach[u])
  }

  /** A node is taken out of the list, and add is called for it. */
  ghost predicate Unlink(s: State, t: nat, s': State, n: nat) {
    && At(s, t, Live) && n in s.linked
    && s' == WithPc(s, t, Adding(n)).(linked := s.linked - {n}, home := s.home[n := With(t)])
  }

  ghost predicate AddLock(s: State, t: nat, s': State, n: nat) {
    At(s, t, Adding(n)) && s.lock.Free? && s' == WithPc(s, t, Pushing(n)).(lock := HeldBy(t))
  }

  ghost predicate Push(s: State, t: nat, s': State, n: nat) {
    At(s, t, Pushing(n)) && s' == WithPc(s, t, Dirtying).(nodes := s.nodes + [n], home := s.home[n := Waiting])
  }

  ghost predicate SetDirty(s: State, t: nat, s': State) {
    At(s, t, Dirtying) && s' == WithPc(s, t, Added).(dirty := true)
  }

  ghost predicate AddUnlock(s: State, t: nat, s': State) {
    At(s, t, Added) && s' == WithPc(s, t, Live).(lock := Free)
  }

  ghost predicate StartRelease(s: State, t: nat, s': State) {
    At(s, t, Live) && s' == WithPc(s, t, ReadDirty)
  }

  ghost predicate LoadDirty(s: State, t: nat, s': State) {
    At(s, t, ReadDirty) && s' == WithPc(s, t, if s.dirty then ReadRefs else FastRelease)
  }

  ghost predicate LoadRefs(s: State, t: nat, s': State) {
    At(s, t, ReadRefs) && s' == WithPc(s, t, if s.refs > 1 then FastRelease else SlowRelease)
  }

  ghost predicate FastDecrement(s: State, t: nat, s': State) {
    At(s, t, FastRelease) && s' == WithPc(s, t, Out).(refs := s.refs - 1, reach := s.reach[t := {}])
  }

  ghost predicate ReleaseLock(s: State, t: nat, s': State) {
    At(s, t, SlowRelease) && s.lock.Free? && s' == WithPc(s, t, Releasing).(lock := HeldBy(t))
  }

  ghost predicate SlowDecrement(s: State, t: nat, s': State) {
    && At(s, t, Releasing)
    && s' == WithPc(s, t, if s.refs == 1 then Swapping else Unlocking([])).(refs := s.refs - 1, reach := s.reach[t := {}])
  }

  ghost predicate Swap(s: State, t: nat, s': State) {
    && At(s, t, Swapping)
    && s' == WithPc(s, t, Cleaning(s.nodes)).(nodes := [],
                                              home := map n | n in s.home ::
                                                        if s.home[n] == Waiting then TakenBy(t) else s.home[n])
  }

  ghost predicate ClearDirty(s: State, t: nat, s': State, mine: seq<nat>) {
    At(s, t, Cleaning(mine)) && s' == WithPc(s, t, Unlocking(mine)).(dirty := false)
  }

  ghost predicate ReleaseUnlock(s: State, t: nat, s': State, mine: seq<nat>) {
    At(s, t, Unlocking(mine)) && s' == WithPc(s, t, Destroying(mine)).(lock := Free)
  }

  ghost predicate DestroyOne(s: State, t: nat, s': State, mine: seq<nat>) {
    && At(s, t, Destroying(mine))
    && s' == if mine == [] then WithPc(s, t, Out)
             else WithPc(s, t, Destroying(mine[1..])).(destroyed := s.destroyed + {mine[0]}, home := s.home[mine[0] := Gone])
  }

  datatype Action =
    | ToAddRef | ToLink(node: nat) | ToUnlink(node: nat) | ToAddLock(node: nat) | ToPush(node: nat) | ToSetDirty | ToAddUnlock
    | ToStartRelease | ToLoadDirty | ToLoadRefs | ToFastDecrement | ToReleaseLock | ToSlowDecrement | ToSwap
    | ToClearDirty(mine: seq<nat>) | ToReleaseUnlock(mine: seq<nat>) | ToDestroy(mine: seq<nat>)

  ghost predicate Next(s: State, t: nat, a: Action, s': State) {
    match a
    case ToAddRef => AddRef(s, t, s')
    case ToLink(n) => Link(s, t, s', n)
    case ToUnlink(n) => Unlink(s, t, s', n)
    case ToAddLock(n) => AddLock(s, t, s', n)
    case ToPush(n) => Push(s, t, s', n)
    case ToSetDirty => SetDirty(s, t, s')
    case ToAddUnlock => AddUnlock(s, t, s')
    case ToStartRelease => StartRelease(s, t, s')
    case ToLoadDirty => LoadDirty(s, t, s')
    case ToLoadRefs => LoadRefs(s, t, s')
    case ToFastDecrement => FastDecrement(s, t, s')
    case ToReleaseLock => ReleaseLock(s, t, s')
    case ToSlowDecrement => SlowDecrement(s, t, s')
    case ToSwap => Swap(s, t, s')
    case ToClearDirty(mine) => ClearDirty(s, t, s', mine)
    case ToReleaseUnlock(mine) => ReleaseUnlock(s, t, s', mine)
    case ToDestroy(mine) => DestroyOne(s, t, s', mine)
  }

  ghost predicate Init(s: State) {
    && s.nodes == [] && s.refs == 0 && !s.dirty && s.lock == Free && s.destroyed == {} && s.home == map[]
    && s.reach.Keys == s.threads.Keys
    && (forall t | t in s.threads :: s.threads[t] == Out && s.reach[t] == {})
  }

  // ----- the invariant

  function CountedSet(threads: map<nat, Pc>): set<nat> {
    set t | t in threads && Counted(threads[t])
  }

  ghost predicate CountOk(s: State) {
    s.refs == |CountedSet(s.threads)|
  }

  /** The lock has one holder; while it is free, dirty says whether nodes wait. */
  ghost predicate LockOk(s: State) {
    && (forall t | t in s.threads :: HoldsLock(s.threads[t]) <==> s.lock == HeldBy(t))
    && (s.lock.HeldBy? ==> s.lock.thread in s.threads)
    && match s.lock
       case Free => s.dirty <==> s.nodes != []
       case HeldBy(t) =>
         t in s.threads && match s.threads[t]
                           case Dirtying => s.nodes != []
                           case Added => s.dirty && s.nodes != []
                           case Cleaning(_) => s.nodes == []
                           case _ => s.dirty <==> s.nodes != []
  }

  predicate Distinct(ids: seq<nat>) {
    forall i, j | 0 <= i < j < |ids| :: ids[i] != ids[j]
  }

  /** Every node ever unlinked is in exactly one place, and not linked. */
  ghost predicate HomesOk(s: State) {
    && s.linked !! s.home.Keys && s.destroyed <= s.home.Keys && Distinct(s.nodes)
    && (forall n | n in s.nodes :: n in s.home)
    && (forall n | n in s.home :: HomeOk(s, n))
    && (forall t | t in s.threads :: ThreadHolds(s, t))
  }

  ghost predicate HomeOk(s: State, n: nat)
    requires n in s.home
  {
    && (s.home[n] == Waiting <==> n in s.nodes)
    && (s.home[n] == Gone <==> n in s.destroyed)
    && match s.home[n]
       case With(t) => t in s.threads && Carries(s.threads[t], n)
       case TakenBy(t) => t in s.threads && n in Mine(s.threads[t])
       case _ => true
  }

  ghost predicate ThreadHolds(s: State, t: nat)
    requires t in s.threads
  {
    && Distinct(Mine(s.threads[t]))
    && (forall n | n in Mine(s.threads[t]) :: n in s.home && s.home[n] == TakenBy(t))
    && (forall n | Carries(s.threads[t], n) :: n in s.home && s.home[n] == With(t))
  }

  /** What an accessor can reach: at least all that is linked, and nothing that is destroyed. */
  ghost predicate ReachFits(s: State, t: nat)
    requires t in s.threads && t in s.reach
  {
    && (Counted(s.threads[t]) ==> s.linked <= s.reach[t] && s.reach[t] !! s.destroyed)
    && (!Counted(s.threads[t]) ==> s.reach[t] == {})
    && (forall n | n in s.reach[t] :: n in s.linked || n in s.home)
  }

  /** What accessor u is about to destroy is out of the reach of accessor t. */
  ghost predicate Apart(s: State, t: nat, u: nat)
    requires t in s.reach && u in s.threads
  {
    && (forall n | n in Mine(s.threads[u]) :: n !in s.reach[t])
    && (s.threads[u].Swapping? ==> forall n | n in s.nodes :: n !in s.reach[t])
  }

  /** No accessor can reach a node that is about to be destroyed, or already is. */
  ghost predicate ReachOk(s: State) {
    && s.reach.Keys == s.threads.Keys
    && (forall t | t in s.threads :: ReachFits(s, t))
    && (forall t, u | t in s.threads && u in s.threads :: Apart(s, t, u))
  }

  ghost predicate Inv(s: State) {
    CountOk(s) && LockOk(s) && HomesOk(s) && ReachOk(s)
  }

  // ----- counting

  lemma CountIn(threads: map<nat, Pc>, t: nat, pc: Pc)
    requires t in threads && !Counted(threads[t]) && Counted(pc)
    ensures |CountedSet(threads[t := pc])| == |CountedSet(threads)| + 1
  {
    assert CountedSet(threads[t := pc]) == CountedSet(threads) + {t};
  }

  lemma CountOut(threads: map<nat, Pc>, t: nat, pc: Pc)
    requires t in threads && Counted(threads[t]) && !Counted(pc)
    ensures |CountedSet(threads[t := pc])| == |CountedSet(threads)| - 1
  {
    assert CountedSet(threads[t := pc]) == CountedSet(threads) - {t};
  }

  lemma CountSame(threads: map<nat, Pc>, t: nat, pc: Pc)
    requires t in threads && (Counted(threads[t]) <==> Counted(pc))
    ensures |CountedSet(threads[t := pc])| == |CountedSet(threads)|
  {
    assert CountedSet(threads[t := pc]) == CountedSet(threads);
  }

  /** With a count of one, the only counted accessor is the one that is counted. */
  lemma CountOne(threads: map<nat, Pc>, t: nat, u: nat)
    requires |CountedSet(threads)| == 1 && t in threads && Counted(threads[t]) && u in threads && Counted(threads[u])
    ensures t == u
  {
    var all := CountedSet(threads);
    assert t in all && u in all;
    assert |all - {t}| == 0;
    assert u !in all - {t};
  }

  // ----- every step keeps the invariant

  /** Nodes stay where they are while an accessor moves. */
  lemma HomesStay(s: State, t: nat, s': State, pc: Pc)
    requires HomesOk(s) && t in s.threads && s'.threads == s.threads[t := pc]
    requires s'.nodes == s.nodes && s'.linked == s.linked && s'.destroyed == s.destroyed && s'.home == s.home
    requires Mine(pc) == Mine(s.threads[t]) && forall n: nat :: Carries(pc, n) == Carries(s.threads[t], n)
    ensures HomesOk(s')
  {
    forall u | u in s'.threads
      ensures ThreadHolds(s', u)
    {
      assert ThreadHolds(s, u);
    }
    forall n | n in s'.home
      ensures HomeOk(s', n)
    {
      assert HomeOk(s, n);
    }
  }

  lemma ReachStays(s: State, t: nat, s': State, pc: Pc)
    requires ReachOk(s) && t in s.threads && s'.threads == s.threads[t := pc]
    requires s'.nodes == s.nodes && s'.linked == s.linked && s'.destroyed == s.destroyed && s'.home == s.home
    requires s'.reach == s.reach
    requires Counted(pc) == Counted(s.threads[t]) && Mine(pc) == Mine(s.threads[t]) && !pc.Swapping?
    ensures ReachOk(s')
  {
    forall u | u in s'.threads
      ensures ReachFits(s', u)
    {
      assert ReachFits(s, u);
    }
    forall u, v | u in s'.threads && v in s'.threads
      ensures Apart(s', u, v)
    {
      assert Apart(s, u, v);
    }
  }

  lemma AddRefKeeps(s: State, t: nat, s': State)
    requires Inv(s) && AddRef(s, t, s')
    ensures Inv(s')
  {
    hide HomesOk, ReachOk;
    CountIn(s.threads, t, Live);
    HomesStay(s, t, s', Live);
    AddRefReach(s, t, s');
  }

  lemma AddRefReach(s: State, t: nat, s': State)
    requires HomesOk(s) && ReachOk(s) && AddRef(s, t, s')
    ensures ReachOk(s')
  {
    forall u | u in s'.threads
      ensures ReachFits(s', u)
    {
      assert ReachFits(s, u);
    }
    forall u, v | u in s'.threads && v in s'.threads
      ensures Apart(s', u, v)
    {
      assert Apart(s, u, v) && ThreadHolds(s, v);
      assert s.nodes == s'.nodes && forall n | n in s.nodes :: n in s.home;
    }
  }

  lemma LinkKeeps(s: State, t: nat, s': State, n: nat)
    requires Inv(s) && Link(s, t, s', n)
    ensures Inv(s')
  {
    hide HomesOk, ReachOk;
    LinkHomes(s, t, s', n);
    LinkReach(s, t, s', n);
  }

  lemma LinkHomes(s: State, t: nat, s': State, n: nat)
    requires HomesOk(s) && Link(s, t, s', n)
    ensures HomesOk(s')
  {
    forall u | u in s'.threads
      ensures ThreadHolds(s', u)
    {
      assert ThreadHolds(s, u);
    }
    forall m | m in s'.home
      ensures HomeOk(s', m)
    {
      assert HomeOk(s, m);
    }
  }

  lemma LinkReach(s: State, t: nat, s': State, n: nat)
    requires HomesOk(s) && ReachOk(s) && Link(s, t, s', n)
    ensures ReachOk(s')
  {
    forall u | u in s'.threads
      ensures ReachFits(s', u)
    {
      assert ReachFits(s, u);
    }
    forall u, v | u in s'.threads && v in s'.threads
      ensures Apart(s', u, v)
    {
      assert Apart(s, u, v) && ThreadHolds(s, v);
    }
  }

  lemma UnlinkKeeps(s: State, t: nat, s': State, n: nat)
    requires Inv(s) && Unlink(s, t, s', n)
    ensures Inv(s')
  {
    hide HomesOk, ReachOk;
    CountSame(s.threads, t, Adding(n));
    UnlinkHomes(s, t, s', n);
    UnlinkReach(s, t, s', n);
  }

  lemma UnlinkHomes(s: State, t: nat, s': State, n: nat)
    requires HomesOk(s) && Unlink(s, t, s', n)
    ensures HomesOk(s')
  {
    assert n !in s.home;
    forall u | u in s'.threads
      ensures ThreadHolds(s', u)
    {
      assert ThreadHolds(s, u);
    }
    forall m | m in s'.home
      ensures HomeOk(s', m)
    {
      if m != n { assert HomeOk(s, m); }
    }
  }

  lemma UnlinkReach(s: State, t: nat, s': State, n: nat)
    requires ReachOk(s) && Unlink(s, t, s', n)
    ensures ReachOk(s')
  {
    forall u | u in s'.threads
      ensures ReachFits(s', u)
    {
      assert ReachFits(s, u);
    }
    forall u, v | u in s'.threads && v in s'.threads
      ensures Apart(s', u, v)
    {
      assert Apart(s, u, v);
    }
  }

  /** A step that moves neither nodes nor accessors. */
  lemma PlainStep(s: State, t: nat, s': State, pc: Pc)
    requires Inv(s) && t in s.threads && s'.threads == s.threads[t := pc] && s'.refs == s.refs && s'.nodes == s.nodes
    requires s'.linked == s.linked && s'.destroyed == s.destroyed && s'.reach == s.reach && s'.home == s.home
    requires Counted(pc) == Counted(s.threads[t]) && Mine(pc) == Mine(s.threads[t]) && !pc.Swapping?
    requires forall n: nat :: Carries(pc, n) == Carries(s.threads[t], n)
    requires LockOk(s')
    ensures Inv(s')
  {
    hide HomesOk, ReachOk, LockOk;
    CountSame(s.threads, t, pc);
    HomesStay(s, t, s', pc);
    ReachStays(s, t, s', pc);
  }

  lemma AddLockKeeps(s: State, t: nat, s': State, n: nat)
    requires Inv(s) && AddLock(s, t, s', n)
    ensures Inv(s')
  {
    hide HomesOk, ReachOk;
    PlainStep(s, t, s', Pushing(n));
  }

  lemma PushKeeps(s: State, t: nat, s': State, n: nat)
    requires Inv(s) && Push(s, t, s', n)
    ensures Inv(s')
  {
    hide HomesOk, ReachOk;
    CountSame(s.threads, t, Dirtying);
    PushHomes(s, t, s', n);
    PushReach(s, t, s', n);
  }

  lemma PushHomes(s: State, t: nat, s': State, n: nat)
    requires HomesOk(s) && Push(s, t, s', n)
    ensures HomesOk(s')
  {
    assert ThreadHolds(s, t) && HomeOk(s, n);
    assert n !in s.nodes;
    forall m | m in s'.home
      ensures HomeOk(s', m)
    {
      assert HomeOk(s, m);
    }
    forall u | u in s'.threads
      ensures ThreadHolds(s', u)
    {
      assert ThreadHolds(s, u);
    }
  }

  lemma PushReach(s: State, t: nat, s': State, n: nat)
    requires ReachOk(s) && LockOk(s) && Push(s, t, s', n)
    ensures ReachOk(s')
  {
    forall u | u in s'.threads
      ensures ReachFits(s', u)
    {
      assert ReachFits(s, u);
    }
    forall u, v | u in s'.threads && v in s'.threads
      ensures Apart(s', u, v)
    {
      assert Apart(s, u, v);
      assert HoldsLock(s.threads[t]) && (HoldsLock(s.threads[v]) <==> s.lock == HeldBy(v));
    }
  }

  lemma SetDirtyKeeps(s: State, t: nat, s': State)
    requires Inv(s) && SetDirty(s, t, s')
    ensures Inv(s')
  {
    hide HomesOk, ReachOk;
    PlainStep(s, t, s', Added);
  }

  lemma AddUnlockKeeps(s: State, t: nat, s': State)
    requires Inv(s) && AddUnlock(s, t, s')
    ensures Inv(s')
  {
    hide HomesOk, ReachOk;
    PlainStep(s, t, s', Live);
  }

  lemma StartReleaseKeeps(s: State, t: nat, s': State)
    requires Inv(s) && StartRelease(s, t, s')
    ensures Inv(s')
  {
    hide HomesOk, ReachOk;
    PlainStep(s, t, s', ReadDirty);
  }

  lemma LoadDirtyKeeps(s: State, t: nat, s': State)
    requires Inv(s) && LoadDirty(s, t, s')
    ensures Inv(s')
  {
    hide HomesOk, ReachOk;
    PlainStep(s, t, s', s'.threads[t]);
  }

  lemma LoadRefsKeeps(s: State, t: nat, s': State)
    requires Inv(s) && LoadRefs(s, t, s')
    ensures Inv(s')
  {
    hide HomesOk, ReachOk;
    PlainStep(s, t, s', s'.threads[t]);
  }

  /** An accessor leaves; if it was the last one, nothing that waits can be reached any more. */
  lemma LeaveReach(s: State, t: nat, s': State, pc: Pc)
    requires CountOk(s) && ReachOk(s) && t in s.threads && Counted(s.threads[t]) && !Counted(pc) && Mine(pc) == []
    requires s'.threads == s.threads[t := pc] && s'.reach == s.reach[t := {}]
    requires s'.nodes == s.nodes && s'.linked == s.linked && s'.destroyed == s.destroyed && s'.home == s.home
    requires pc.Swapping? ==> s.refs == 1
    ensures ReachOk(s')
  {
    forall u | u in s'.threads
      ensures ReachFits(s', u)
    {
      assert ReachFits(s, u);
    }
    forall u, v | u in s'.threads && v in s'.threads
      ensures Apart(s', u, v)
    {
      assert Apart(s, u, v) && ReachFits(s, u);
      if v == t && u != t && pc.Swapping? && Counted(s.threads[u]) { CountOne(s.threads, t, u); }
    }
  }

  lemma FastDecrementKeeps(s: State, t: nat, s': State)
    requires Inv(s) && FastDecrement(s, t, s')
    ensures Inv(s')
  {
    hide HomesOk, ReachOk;
    CountOut(s.threads, t, Out);
    HomesStay(s, t, s', Out);
    LeaveReach(s, t, s', Out);
  }

  lemma ReleaseLockKeeps(s: State, t: nat, s': State)
    requires Inv(s) && ReleaseLock(s, t, s')
    ensures Inv(s')
  {
    hide HomesOk, ReachOk;
    PlainStep(s, t, s', Releasing);
  }

  lemma SlowDecrementKeeps(s: State, t: nat, s': State)
    requires Inv(s) && SlowDecrement(s, t, s')
    ensures Inv(s')
  {
    hide HomesOk, ReachOk;
    var pc := s'.threads[t];
    CountOut(s.threads, t, pc);
    HomesStay(s, t, s', pc);
    LeaveReach(s, t, s', pc);
  }

  lemma SwapKeeps(s: State, t: nat, s': State)
    requires Inv(s) && Swap(s, t, s')
    ensures Inv(s')
  {
    hide HomesOk, ReachOk;
    CountSame(s.threads, t, Cleaning(s.nodes));
    SwapHomes(s, t, s');
    SwapReach(s, t, s');
  }

  lemma SwapHomes(s: State, t: nat, s': State)
    requires HomesOk(s) && Swap(s, t, s')
    ensures HomesOk(s')
  {
    forall n | n in s'.home
      ensures HomeOk(s', n)
    {
      assert HomeOk(s, n);
    }
    forall u | u in s'.threads
      ensures ThreadHolds(s', u)
    {
      assert ThreadHolds(s, u);
      if u == t {
        forall n | n in s.nodes
          ensures n in s'.home && s'.home[n] == TakenBy(t)
        {
          assert HomeOk(s, n);
        }
      }
    }
  }

  lemma SwapReach(s: State, t: nat, s': State)
    requires ReachOk(s) && Swap(s, t, s')
    ensures ReachOk(s')
  {
    forall u | u in s'.threads
      ensures ReachFits(s', u)
    {
      assert ReachFits(s, u);
    }
    forall u, v | u in s'.threads && v in s'.threads
      ensures Apart(s', u, v)
    {
      assert Apart(s, u, v);
    }
  }

  lemma ClearDirtyKeeps(s: State, t: nat, s': State, mine: seq<nat>)
    requires Inv(s) && ClearDirty(s, t, s', mine)
    ensures Inv(s')
  {
    hide HomesOk, ReachOk;
    PlainStep(s, t, s', Unlocking(mine));
  }

  lemma ReleaseUnlockKeeps(s: State, t: nat, s': State, mine: seq<nat>)
    requires Inv(s) && ReleaseUnlock(s, t, s', mine)
    ensures Inv(s')
  {
    hide HomesOk, ReachOk;
    PlainStep(s, t, s', Destroying(mine));
  }

  lemma DestroyKeeps(s: State, t: nat, s': State, mine: seq<nat>)
    requires Inv(s) && DestroyOne(s, t, s', mine)
    ensures Inv(s')
  {
    hide HomesOk, ReachOk;
    if mine == [] {
      PlainStep(s, t, s', Out);
    } else {
      CountSame(s.threads, t, Destroying(mine[1..]));
      DestroyHomes(s, t, s', mine);
      DestroyReach(s, t, s', mine);
    }
  }

  lemma DestroyHome(s: State, t: nat, s': State, mine: seq<nat>, n: nat)
    requires DestroyOne(s, t, s', mine) && mine != [] && ThreadHolds(s, t) && mine[0] in s.home
    requires n in s.home && HomeOk(s, n) && HomeOk(s, mine[0]) && s.home[mine[0]] == TakenBy(t)
    ensures HomeOk(s', n)
  {
    assert mine == [mine[0]] + mine[1..];
  }

  lemma DestroyHolds(s: State, t: nat, s': State, mine: seq<nat>, u: nat)
    requires DestroyOne(s, t, s', mine) && mine != [] && ThreadHolds(s, t) && mine[0] in s.home
    requires u in s.threads && ThreadHolds(s, u) && s.home[mine[0]] == TakenBy(t)
    ensures ThreadHolds(s', u)
  {
    assert mine == [mine[0]] + mine[1..];
  }

  lemma DestroyHomes(s: State, t: nat, s': State, mine: seq<nat>)
    requires HomesOk(s) && DestroyOne(s, t, s', mine) && mine != []
    ensures HomesOk(s')
  {
    assert mine == [mine[0]] + mine[1..];
    assert ThreadHolds(s, t) && mine[0] in Mine(s.threads[t]);
    forall n | n in s'.home
      ensures HomeOk(s', n)
    {
      assert HomeOk(s, n) && HomeOk(s, mine[0]);
      DestroyHome(s, t, s', mine, n);
    }
    forall u | u in s'.threads
      ensures ThreadHolds(s', u)
    {
      assert ThreadHolds(s, u);
      DestroyHolds(s, t, s', mine, u);
    }
  }

  lemma DestroyReach(s: State, t: nat, s': State, mine: seq<nat>)
    requires HomesOk(s) && ReachOk(s) && DestroyOne(s, t, s', mine) && mine != []
    ensures ReachOk(s')
  {
    assert ThreadHolds(s, t) && mine[0] in Mine(s.threads[t]);
    forall u | u in s'.threads
      ensures ReachFits(s', u)
    {
      assert ReachFits(s, u) && Apart(s, u, t);
    }
    forall u, v | u in s'.threads && v in s'.threads
      ensures Apart(s', u, v)
    {
      assert Apart(s, u, v);
    }
  }

  lemma NextKeeps(s: State, t: nat, a: Action, s': State)
    requires Inv(s) && Next(s, t, a, s')
    ensures Inv(s')
  {
    hide Inv, AddRef, Link, Unlink, AddLock, Push, SetDirty, AddUnlock, StartRelease, LoadDirty, LoadRefs, FastDecrement,
         ReleaseLock, SlowDecrement, Swap, ClearDirty, ReleaseUnlock, DestroyOne;
    match a
    case ToAddRef => AddRefKeeps(s, t, s');
    case ToLink(n) => LinkKeeps(s, t, s', n);
    case ToUnlink(n) => UnlinkKeeps(s, t, s', n);
    case ToAddLock(n) => AddLockKeeps(s, t, s', n);
    case ToPush(n) => PushKeeps(s, t, s', n);
    case ToSetDirty => SetDirtyKeeps(s, t, s');
    case ToAddUnlock => AddUnlockKeeps(s, t, s');
    case ToStartRelease => StartReleaseKeeps(s, t, s');
    case ToLoadDirty => LoadDirtyKeeps(s, t, s');
    case ToLoadRefs => LoadRefsKeeps(s, t, s');
    case ToFastDecrement => FastDecrementKeeps(s, t, s');
    case ToReleaseLock => ReleaseLockKeeps(s, t, s');
    case ToSlowDecrement => SlowDecrementKeeps(s, t, s');
    case ToSwap => SwapKeeps(s, t, s');
    case ToClearDirty(mine) => ClearDirtyKeeps(s, t, s', mine);
    case ToReleaseUnlock(mine) => ReleaseUnlockKeeps(s, t, s', mine);
    case ToDestroy(mine) => DestroyKeeps(s, t, s', mine);
  }

  lemma InitHolds(s: State)
    requires Init(s)
    ensures Inv(s)
  {
    assert CountedSet(s.threads) == {};
  }
}
