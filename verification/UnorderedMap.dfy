/**
 The insert-only unordered map: one word per slot holds both the head of the slot's chain and the state
 of the slot's own storage.
 */
module UnorderedMap {

  const EMPTY: nat := 0
  const CONSTRUCTING: nat := 1
  const LINKED: nat := 2

  datatype Slot = Slot(headAndState: nat, next: nat, key: int)

  function Head(word: nat): nat {
    word / 4
  }

  function StateOf(word: nat): nat {
    word % 4
  }

  datatype Setup = Setup(hash: int -> nat, slotMask: nat)

  /** An insert: its key, the last value read of the bucket's word with the chain's length then, and its own slot. */
  datatype Job = Job(key: int, prev: nat, seen: nat, idx: nat)

  /** What findOrConstruct ends with: the key's slot and whether it was constructed, or one of its two exceptions. */
  datatype Answer = None | Got(slot: nat, constructed: bool) | Threw | NoSlot

  /** Where a thread is; between two operations it remembers the answer of its last insert. */
  datatype Pc =
    | Idle(last: Answer)
    | FindHead(job: Job)
    | Scan(job: Job, cur: nat, from: nat, left: nat)
    | Allocate(job: Job, from: nat)
    | Construct(job: Job, from: nat)
    | SetNext(job: Job, from: nat)
    | Swap(job: Job, from: nat)
    | Mark(idx: nat)
    | Undo(idx: nat, answer: Answer)
    | LookHead(key: int)
    | Look(key: int, cur: nat, from: nat, left: nat)
    | Answered(key: int, found: nat, from: nat)

  /** chains records, for every bucket, the slots linked into it so far, oldest first. */
  datatype State = State(setup: Setup, slots: seq<Slot>, chains: seq<seq<nat>>, threads: map<nat, Pc>)

  function KeyToSlotIdx(s: State, key: int): (i: nat)
    requires |s.slots| > 0
    ensures i < |s.slots|
  {
    s.setup.hash(key) % (s.setup.slotMask + 1) % |s.slots|
  }

  function WithPc(s: State, t: nat, pc: Pc): State {
    s.(threads := s.threads[t := pc])
  }

  function WithSlot(s: State, i: nat, slot: Slot): State
    requires i < |s.slots|
  {
    s.(slots := s.slots[i := slot])
  }

  function WordOf(s: State, i: nat): nat
    requires i < |s.slots|
  {
    s.slots[i].headAndState
  }

  predicate Sized(s: State) {
    0 < |s.slots| == |s.chains|
  }

  function ChainOf(s: State, key: int): seq<nat>
    requires Sized(s)
  {
    s.chains[KeyToSlotIdx(s, key)]
  }

  /** Adds the difference of two states to a slot's word. */
  function StateUpdate(s: State, i: nat, before: nat, after: nat): State
    requires i < |s.slots| && before <= WordOf(s, i) + after
  {
    WithSlot(s, i, s.slots[i].(headAndState := WordOf(s, i) + after - before))
  }

  // ----- one thread's next step

  ghost predicate StartInsert(s: State, t: nat, s': State, key: int) {
    && t in s.threads && s.threads[t].Idle? && Sized(s)
    && var slot := KeyToSlotIdx(s, key);
       s' == WithPc(s, t, FindHead(Job(key, WordOf(s, slot), |s.chains[slot]|, 0)))
  }

  ghost predicate ReadHead(s: State, t: nat, s': State) {
    && t in s.threads && s.threads[t].FindHead? && Sized(s)
    && var job := s.threads[t].job;
       var n := |ChainOf(s, job.key)|;
       s' == WithPc(s, t, Scan(job, Head(WordOf(s, KeyToSlotIdx(s, job.key))), n, n))
  }

  /** Compares one key of the chain; the end of the chain means that the key was not there. */
  ghost predicate ScanOne(s: State, t: nat, s': State) {
    && t in s.threads && s.threads[t].Scan?
    && var pc := s.threads[t];
       if pc.cur == 0 then
         s' == WithPc(s, t, if pc.job.idx == 0 then Allocate(pc.job, pc.from) else SetNext(pc.job, pc.from))
       else
         && pc.cur < |s.slots|
         && s' == WithPc(s, t,
                         if s.slots[pc.cur].key == pc.job.key then
                           if pc.job.idx == 0 then Idle(Got(pc.cur, false)) else Undo(pc.job.idx, Got(pc.cur, false))
                         else Scan(pc.job, s.slots[pc.cur].next, pc.from, if pc.left > 0 then pc.left - 1 else 0))
  }

  /**
   One attempt at a slot: taken if it is empty. Otherwise, or if its word changes between the load and the
   compare-and-swap, another attempt follows, or the insert gives up.
   */
  ghost predicate TryAllocate(s: State, t: nat, s': State, slot: nat, giveUp: bool) {
    && t in s.threads && s.threads[t].Allocate? && slot < |s.slots|
    && var pc := s.threads[t];
       if giveUp then s' == WithPc(s, t, Idle(NoSlot))
       else
         || s' == s
         || (StateOf(WordOf(s, slot)) == EMPTY
             && s' == WithPc(StateUpdate(s, slot, EMPTY, CONSTRUCTING), t, Construct(pc.job.(idx := slot), pc.from)))
  }

  /** The key and value are constructed, or a constructor throws and the slot is given back. */
  ghost predicate DoConstruct(s: State, t: nat, s': State, throws: bool) {
    && t in s.threads && s.threads[t].Construct? && s.threads[t].job.idx < |s.slots|
    && var job, from := s.threads[t].job, s.threads[t].from;
       if throws then s' == WithPc(s, t, Undo(job.idx, Threw))
       else s' == WithPc(WithSlot(s, job.idx, s.slots[job.idx].(key := job.key)), t, SetNext(job, from))
  }

  ghost predicate DoSetNext(s: State, t: nat, s': State) {
    && t in s.threads && s.threads[t].SetNext? && s.threads[t].job.idx < |s.slots|
    && var job, from := s.threads[t].job, s.threads[t].from;
       s' == WithPc(WithSlot(s, job.idx, s.slots[job.idx].(next := Head(job.prev))), t, Swap(job, from))
  }

  /** The compare-and-swap that links the slot; linking it into its own bucket also marks it. */
  ghost predicate DoSwap(s: State, t: nat, s': State) {
    && t in s.threads && s.threads[t].Swap? && Sized(s)
    && var job := s.threads[t].job;
       var slot := KeyToSlotIdx(s, job.key);
       if WordOf(s, slot) == job.prev then
         var after := 4 * job.idx + (if slot == job.idx then LINKED else StateOf(job.prev));
         s' == WithPc(WithSlot(s, slot, s.slots[slot].(headAndState := after))
                        .(chains := s.chains[slot := s.chains[slot] + [job.idx]]),
                      t, if slot == job.idx then Idle(Got(job.idx, true)) else Mark(job.idx))
       else
         s' == WithPc(s, t, FindHead(job.(prev := WordOf(s, slot), seen := |s.chains[slot]|)))
  }

  ghost predicate DoMark(s: State, t: nat, s': State) {
    && t in s.threads && s.threads[t].Mark? && s.threads[t].idx < |s.slots|
    && s' == WithPc(StateUpdate(s, s.threads[t].idx, CONSTRUCTING, LINKED), t, Idle(Got(s.threads[t].idx, true)))
  }

  ghost predicate DoUndo(s: State, t: nat, s': State) {
    && t in s.threads && s.threads[t].Undo? && s.threads[t].idx < |s.slots| && WordOf(s, s.threads[t].idx) >= CONSTRUCTING
    && s' == WithPc(StateUpdate(s, s.threads[t].idx, CONSTRUCTING, EMPTY), t, Idle(s.threads[t].answer))
  }

  ghost predicate StartFind(s: State, t: nat, s': State, key: int) {
    t in s.threads && s.threads[t].Idle? && s' == WithPc(s, t, LookHead(key))
  }

  ghost predicate DoLookHead(s: State, t: nat, s': State) {
    && t in s.threads && s.threads[t].LookHead? && Sized(s)
    && var key := s.threads[t].key;
       var n := |ChainOf(s, key)|;
       s' == WithPc(s, t, Look(key, Head(WordOf(s, KeyToSlotIdx(s, key))), n, n))
  }

  ghost predicate DoLook(s: State, t: nat, s': State) {
    && t in s.threads && s.threads[t].Look?
    && var pc := s.threads[t];
       if pc.cur == 0 then s' == WithPc(s, t, Answered(pc.key, 0, pc.from))
       else
         && pc.cur < |s.slots|
         && s' == WithPc(s, t, if s.slots[pc.cur].key == pc.key then Answered(pc.key, pc.cur, pc.from)
                               else Look(pc.key, s.slots[pc.cur].next, pc.from, if pc.left > 0 then pc.left - 1 else 0))
  }

  ghost predicate DoAnswer(s: State, t: nat, s': State) {
    t in s.threads && s.threads[t].Answered? && s' == WithPc(s, t, Idle(None))
  }

  datatype Action =
    | ToInsert(key: int) | ToReadHead | ToScan | ToAllocate(slot: nat, giveUp: bool) | ToConstruct(throws: bool) | ToSetNext
    | ToSwap | ToMark | ToUndo | ToFind(key: int) | ToLookHead | ToLook | ToAnswer

  ghost predicate Next(s: State, t: nat, a: Action, s': State) {
    match a
    case ToInsert(key) => StartInsert(s, t, s', key)
    case ToReadHead => ReadHead(s, t, s')
    case ToScan => ScanOne(s, t, s')
    case ToAllocate(slot, giveUp) => TryAllocate(s, t, s', slot, giveUp)
    case ToConstruct(throws) => DoConstruct(s, t, s', throws)
    case ToSetNext => DoSetNext(s, t, s')
    case ToSwap => DoSwap(s, t, s')
    case ToMark => DoMark(s, t, s')
    case ToUndo => DoUndo(s, t, s')
    case ToFind(key) => StartFind(s, t, s', key)
    case ToLookHead => DoLookHead(s, t, s')
    case ToLook => DoLook(s, t, s')
    case ToAnswer => DoAnswer(s, t, s')
  }

  /** Slots filled with zeros; the zeroth, which stands for nil, is taken for good. */
  ghost predicate Init(s: State) {
    && Sized(s)
    && (forall i | 0 <= i < |s.slots| ::
          s.slots[i].headAndState == (if i == 0 then CONSTRUCTING else EMPTY) && s.chains[i] == [])
    && (forall t | t in s.threads :: s.threads[t] == Idle(None))
  }

  // ----- the invariant

  function Last(ids: seq<nat>): nat {
    if ids == [] then 0 else ids[|ids| - 1]
  }

  predicate Occupied(word: nat) {
    StateOf(word) == CONSTRUCTING || StateOf(word) == LINKED
  }

  /** A slot of a chain leads to the next older one, and holds a key of the chain's bucket. */
  predicate MemberOk(s: State, b: nat, j: nat)
    requires Sized(s) && b < |s.slots| && j < |s.chains[b]|
  {
    var i := s.chains[b][j];
    && 0 < i < |s.slots|
    && s.slots[i].next == Last(s.chains[b][..j])
    && KeyToSlotIdx(s, s.slots[i].key) == b
    && Occupied(WordOf(s, i))
  }

  /** The chain of a bucket: linked from the newest slot to the oldest, all with different keys of that bucket. */
  ghost predicate ChainOk(s: State, b: nat)
    requires Sized(s) && b < |s.slots|
  {
    var ids := s.chains[b];
    && Head(WordOf(s, b)) == Last(ids)
    && (forall j: nat | j < |ids| :: MemberOk(s, b, j))
    && (forall i: nat, j: nat | i < j < |ids| && ids[i] < |s.slots| && ids[j] < |s.slots| ::
          s.slots[ids[i]].key != s.slots[ids[j]].key)
  }

  ghost predicate ChainsOk(s: State) {
    Sized(s) && forall b: nat | b < |s.slots| :: ChainOk(s, b)
  }

  predicate InChain(s: State, b: nat, i: nat) {
    b < |s.chains| && i in s.chains[b]
  }

  /** The slot a thread has taken and not yet linked, or linked and not yet marked. */
  function Own(pc: Pc): nat {
    match pc
    case FindHead(job) => job.idx
    case Scan(job, _, _, _) => job.idx
    case Construct(job, _) => job.idx
    case SetNext(job, _) => job.idx
    case Swap(job, _) => job.idx
    case Mark(idx) => idx
    case Undo(idx, _) => idx
    case _ => 0
  }

  /** The slot that a thread has taken is under construction, and in no chain before it is linked. */
  ghost predicate OwnerOk(s: State, pc: Pc) {
    Own(pc) != 0 ==>
      && Own(pc) < |s.slots| && StateOf(WordOf(s, Own(pc))) == CONSTRUCTING
      && (!pc.Mark? ==> forall b: nat :: !InChain(s, b, Own(pc)))
  }

  ghost predicate OwnersOk(s: State) {
    && Sized(s) && StateOf(WordOf(s, 0)) == CONSTRUCTING
    && (forall t | t in s.threads :: OwnerOk(s, s.threads[t]))
    && (forall t, u | t in s.threads && u in s.threads && t != u && Own(s.threads[t]) != 0 ::
          Own(s.threads[t]) != Own(s.threads[u]))
  }

  /** No slot among the first m of the chain, but perhaps among the first lo, holds the key. */
  ghost predicate NotAmong(s: State, key: int, lo: nat, m: nat) {
    && Sized(s) && lo <= m <= |ChainOf(s, key)|
    && forall j | lo <= j < m :: ChainOf(s, key)[j] < |s.slots| && s.slots[ChainOf(s, key)[j]].key != key
  }

  /** prev is the word the bucket had when its chain was seen slots long. */
  ghost predicate JobOk(s: State, job: Job) {
    && Sized(s) && job.seen <= |ChainOf(s, job.key)| && Head(job.prev) == Last(ChainOf(s, job.key)[..job.seen])
  }

  ghost predicate ThreadOk(s: State, pc: Pc) {
    && Sized(s)
    && match pc
       case FindHead(job) => JobOk(s, job) && (job.idx != 0 ==> HasKey(s, job))
       case Scan(job, cur, from, left) =>
         && JobOk(s, job) && (job.idx != 0 ==> HasKey(s, job))
         && job.seen <= from && NotAmong(s, job.key, left, from) && cur == Last(ChainOf(s, job.key)[..left])
       case Allocate(job, from) => JobOk(s, job) && job.seen <= from && NotAmong(s, job.key, 0, from) && job.idx == 0
       case Construct(job, from) => JobOk(s, job) && job.seen <= from && NotAmong(s, job.key, 0, from) && job.idx != 0
       case SetNext(job, from) => JobOk(s, job) && job.seen <= from && NotAmong(s, job.key, 0, from) && HasKey(s, job)
       case Swap(job, from) =>
         && JobOk(s, job) && job.seen <= from && NotAmong(s, job.key, 0, from) && HasKey(s, job)
         && s.slots[job.idx].next == Head(job.prev)
       case Mark(idx) => idx != 0
       case Undo(idx, _) => idx != 0
       case Look(key, cur, from, left) => NotAmong(s, key, left, from) && cur == Last(ChainOf(s, key)[..left])
       case Answered(key, found, from) =>
         if found == 0 then NotAmong(s, key, 0, from)
         else found < |s.slots| && s.slots[found].key == key && InChain(s, KeyToSlotIdx(s, key), found)
       case _ => true
  }

  predicate HasKey(s: State, job: Job) {
    0 < job.idx < |s.slots| && s.slots[job.idx].key == job.key
  }

  ghost predicate ThreadsOk(s: State) {
    forall t | t in s.threads :: ThreadOk(s, s.threads[t])
  }

  ghost predicate Inv(s: State) {
    ChainsOk(s) && OwnersOk(s) && ThreadsOk(s)
  }
}
