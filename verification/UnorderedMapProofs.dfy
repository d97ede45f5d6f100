/** Chains stay acyclic, sorted into their buckets and free of duplicates under any interleaving. */
module UnorderedMapProofs {
  import opened UnorderedMap

  // ----- words

  lemma WordParts(head: nat, state: nat)
    requires state < 4
    ensures Head(4 * head + state) == head && StateOf(4 * head + state) == state
  {
  }

  lemma StateUpdated(w: nat, before: nat, after: nat)
    requires StateOf(w) == before && after < 4
    ensures w + after >= before && Head(w + after - before) == Head(w) && StateOf(w + after - before) == after
  {
  }

  // ----- growth

  /** Chains only get longer, and linked slots keep their keys and links. */
  ghost predicate Grows(s: State, s': State) {
    && Sized(s) && Sized(s') && s'.setup == s.setup && |s'.slots| == |s.slots|
    && (forall b: nat | b < |s.chains| :: s.chains[b] <= s'.chains[b])
    && (forall b: nat, i: nat | InChain(s, b, i) && i < |s.slots| ::
          s'.slots[i].key == s.slots[i].key && s'.slots[i].next == s.slots[i].next)
  }

  lemma PrefixLast(ids: seq<nat>, ids': seq<nat>, m: nat)
    requires ids <= ids' && m <= |ids|
    ensures ids'[..m] == ids[..m]
  {
  }

  lemma NotAmongStays(s: State, s': State, key: int, lo: nat, m: nat)
    requires Grows(s, s') && NotAmong(s, key, lo, m)
    ensures NotAmong(s', key, lo, m)
  {
    var b := KeyToSlotIdx(s, key);
    forall j | lo <= j < m
      ensures ChainOf(s', key)[j] < |s'.slots| && s'.slots[ChainOf(s', key)[j]].key != key
    {
      assert ChainOf(s', key)[j] == ChainOf(s, key)[j];
      assert InChain(s, b, ChainOf(s, key)[j]);
    }
  }

  lemma JobStays(s: State, s': State, job: Job)
    requires Grows(s, s') && JobOk(s, job)
    ensures JobOk(s', job)
  {
    PrefixLast(ChainOf(s, job.key), ChainOf(s', job.key), job.seen);
  }

  lemma ThreadStays(s: State, s': State, pc: Pc)
    requires Grows(s, s') && ThreadOk(s, pc)
    requires Own(pc) != 0 && Own(pc) < |s.slots| ==>
               s'.slots[Own(pc)].key == s.slots[Own(pc)].key && s'.slots[Own(pc)].next == s.slots[Own(pc)].next
    ensures ThreadOk(s', pc)
  {
    hide Grows, NotAmong, JobOk;
    GrowsSized(s, s');
    match pc
    case FindHead(job) => JobStays(s, s', job);
    case Scan(job, cur, from, left) =>
      JobStays(s, s', job);
      NotAmongStays(s, s', job.key, left, from);
      ScanStays(s, s', job.key, left, from);
    case Allocate(job, from) =>
      JobStays(s, s', job);
      NotAmongStays(s, s', job.key, 0, from);
    case Construct(job, from) =>
      JobStays(s, s', job);
      NotAmongStays(s, s', job.key, 0, from);
    case SetNext(job, from) =>
      JobStays(s, s', job);
      NotAmongStays(s, s', job.key, 0, from);
    case Swap(job, from) =>
      JobStays(s, s', job);
      NotAmongStays(s, s', job.key, 0, from);
    case Look(key, cur, from, left) =>
      NotAmongStays(s, s', key, left, from);
      ScanStays(s, s', key, left, from);
    case Answered(key, found, from) =>
      if found == 0 { NotAmongStays(s, s', key, 0, from); } else { FoundStays(s, s', key, found); }
    case _ =>
  }

  lemma GrowsSized(s: State, s': State)
    requires Grows(s, s')
    ensures Sized(s') && |s'.slots| == |s.slots| && s'.setup == s.setup
  {
  }

  lemma ScanStays(s: State, s': State, key: int, left: nat, from: nat)
    requires Grows(s, s') && NotAmong(s, key, left, from)
    ensures ChainOf(s', key)[..left] == ChainOf(s, key)[..left]
  {
  }

  lemma FoundStays(s: State, s': State, key: int, found: nat)
    requires Grows(s, s') && found < |s.slots| && s.slots[found].key == key && InChain(s, KeyToSlotIdx(s, key), found)
    ensures s'.slots[found].key == key && InChain(s', KeyToSlotIdx(s', key), found)
  {
    var b := KeyToSlotIdx(s, key);
    var j :| 0 <= j < |s.chains[b]| && s.chains[b][j] == found;
    assert s'.chains[b][j] == found;
  }

  // ----- one chain

  lemma ChainSame(s: State, s': State, b: nat)
    requires Sized(s) && Sized(s') && s'.setup == s.setup && |s'.slots| == |s.slots| && b < |s.slots|
    requires ChainOk(s, b) && s'.chains[b] == s.chains[b] && Head(WordOf(s', b)) == Head(WordOf(s, b))
    requires forall i: nat | i in s.chains[b] && i < |s.slots| ::
               && s'.slots[i].key == s.slots[i].key && s'.slots[i].next == s.slots[i].next
               && Occupied(WordOf(s', i))
    ensures ChainOk(s', b)
  {
    forall j: nat | j < |s.chains[b]|
      ensures MemberOk(s', b, j)
    {
      assert MemberOk(s, b, j);
    }
    forall i: nat, j: nat | i < j < |s.chains[b]| && s.chains[b][i] < |s.slots| && s.chains[b][j] < |s.slots|
      ensures s'.slots[s.chains[b][i]].key != s'.slots[s.chains[b][j]].key
    {
      assert MemberOk(s, b, i) && MemberOk(s, b, j);
    }
  }

  /** Slots in chains are not empty, and slot zero is in none. */
  lemma ChainMember(s: State, b: nat, i: nat)
    requires ChainsOk(s) && InChain(s, b, i)
    ensures 0 < i < |s.slots| && Occupied(WordOf(s, i)) && KeyToSlotIdx(s, s.slots[i].key) == b
  {
    assert ChainOk(s, b);
    var j: nat :| j < |s.chains[b]| && s.chains[b][j] == i;
    assert MemberOk(s, b, j);
  }

  // ----- putting a step together

  ghost predicate OthersKept(s: State, s': State, mine: nat) {
    |s'.slots| == |s.slots| && forall i | 0 <= i < |s.slots| && (i != mine || i == 0) ::
      s'.slots[i].key == s.slots[i].key && s'.slots[i].next == s.slots[i].next
  }

  lemma StepKeeps(s: State, t: nat, s': State, pc: Pc)
    requires Inv(s) && t in s.threads && s'.threads == s.threads[t := pc]
    requires ChainsOk(s') && Grows(s, s') && OwnersOk(s') && ThreadOk(s', pc)
    requires OthersKept(s, s', Own(s.threads[t]))
    ensures Inv(s') && Grows(s, s')
  {
    hide ThreadOk, ChainsOk, Grows;
    forall u | u in s'.threads
      ensures ThreadOk(s', s'.threads[u])
    {
      if u != t { ThreadStays(s, s', s.threads[u]); }
    }
  }

  /** A step that leaves all slots and chains as they are. */
  lemma LocalStep(s: State, t: nat, s': State, pc: Pc)
    requires Inv(s) && t in s.threads && s' == WithPc(s, t, pc) && ThreadOk(s, pc)
    requires Own(pc) == 0 || (Own(pc) == Own(s.threads[t]) && (pc.Mark? <==> s.threads[t].Mark?))
    ensures Inv(s') && Grows(s, s')
  {
    assert Grows(s, s');
    forall b: nat | b < |s'.slots|
      ensures ChainOk(s', b)
    {
      forall i: nat | i in s.chains[b] && i < |s.slots|
        ensures Occupied(WordOf(s', i))
      {
        assert InChain(s, b, i);
        ChainMember(s, b, i);
      }
      ChainSame(s, s', b);
    }
    forall b: nat, i: nat
      ensures InChain(s', b, i) == InChain(s, b, i)
    {
    }
    ThreadStays(s, s', pc);
    StepKeeps(s, t, s', pc);
  }

  lemma StartInsertKeeps(s: State, t: nat, s': State, key: int)
    requires Inv(s) && StartInsert(s, t, s', key)
    ensures Inv(s') && Grows(s, s')
  {
    var b := KeyToSlotIdx(s, key);
    assert ChainOk(s, b);
    assert s.chains[b][..|s.chains[b]|] == s.chains[b];
    LocalStep(s, t, s', s'.threads[t]);
  }

  lemma ReadHeadKeeps(s: State, t: nat, s': State)
    requires Inv(s) && ReadHead(s, t, s')
    ensures Inv(s') && Grows(s, s')
  {
    var job := s.threads[t].job;
    assert ThreadOk(s, s.threads[t]);
    var b := KeyToSlotIdx(s, job.key);
    assert ChainOk(s, b);
    assert s.chains[b][..|s.chains[b]|] == s.chains[b];
    LocalStep(s, t, s', s'.threads[t]);
  }

  /** Where a scan stands: at the slot before the ones already seen. */
  lemma ScanAt(s: State, key: int, cur: nat, from: nat, left: nat)
    requires ChainsOk(s) && NotAmong(s, key, left, from) && cur == Last(ChainOf(s, key)[..left])
    ensures cur == 0 <==> left == 0
    ensures cur != 0 ==>
              && cur < |s.slots| && InChain(s, KeyToSlotIdx(s, key), cur)
              && s.slots[cur].next == Last(ChainOf(s, key)[..left - 1])
              && (s.slots[cur].key != key ==> NotAmong(s, key, left - 1, from))
  {
    var b := KeyToSlotIdx(s, key);
    assert ChainOk(s, b);
    if left > 0 {
      assert MemberOk(s, b, left - 1);
      assert ChainOf(s, key)[..left][left - 1] == ChainOf(s, key)[left - 1];
    }
  }

  lemma ScanOneKeeps(s: State, t: nat, s': State)
    requires Inv(s) && ScanOne(s, t, s')
    ensures Inv(s') && Grows(s, s')
  {
    var pc := s.threads[t];
    assert ThreadOk(s, pc);
    ScanAt(s, pc.job.key, pc.cur, pc.from, pc.left);
    LocalStep(s, t, s', s'.threads[t]);
  }

  lemma StartFindKeeps(s: State, t: nat, s': State, key: int)
    requires Inv(s) && StartFind(s, t, s', key)
    ensures Inv(s') && Grows(s, s')
  {
    LocalStep(s, t, s', s'.threads[t]);
  }

  lemma LookHeadKeeps(s: State, t: nat, s': State)
    requires Inv(s) && DoLookHead(s, t, s')
    ensures Inv(s') && Grows(s, s')
  {
    var b := KeyToSlotIdx(s, s.threads[t].key);
    assert ChainOk(s, b);
    assert s.chains[b][..|s.chains[b]|] == s.chains[b];
    LocalStep(s, t, s', s'.threads[t]);
  }

  lemma LookKeeps(s: State, t: nat, s': State)
    requires Inv(s) && DoLook(s, t, s')
    ensures Inv(s') && Grows(s, s')
  {
    var pc := s.threads[t];
    assert ThreadOk(s, pc);
    ScanAt(s, pc.key, pc.cur, pc.from, pc.left);
    LocalStep(s, t, s', s'.threads[t]);
  }

  lemma AnswerKeeps(s: State, t: nat, s': State)
    requires Inv(s) && DoAnswer(s, t, s')
    ensures Inv(s') && Grows(s, s')
  {
    LocalStep(s, t, s', s'.threads[t]);
  }

  // ----- steps on a slot's state

  /** Only the state part of one slot's word changes. */
  ghost predicate StateOnly(s: State, s': State, i: nat, after: nat) {
    && Sized(s) && i < |s.slots| == |s'.slots| && s'.setup == s.setup && s'.chains == s.chains
    && s'.slots == s.slots[i := s.slots[i].(headAndState := WordOf(s', i))]
    && Head(WordOf(s', i)) == Head(WordOf(s, i)) && StateOf(WordOf(s', i)) == after
  }

  lemma StateGrows(s: State, s': State, i: nat, after: nat)
    requires StateOnly(s, s', i, after)
    ensures Grows(s, s') && OthersKept(s, s', i)
    ensures forall b: nat, j: nat :: InChain(s', b, j) == InChain(s, b, j)
  {
  }

  lemma StateChains(s: State, s': State, i: nat, after: nat)
    requires ChainsOk(s) && StateOnly(s, s', i, after)
    requires after == CONSTRUCTING || after == LINKED || forall b: nat :: !InChain(s, b, i)
    ensures ChainsOk(s')
  {
    forall b: nat | b < |s'.slots|
      ensures ChainOk(s', b)
    {
      forall j: nat | j in s.chains[b] && j < |s.slots|
        ensures Occupied(WordOf(s', j))
      {
        assert InChain(s, b, j);
        ChainMember(s, b, j);
      }
      ChainSame(s, s', b);
    }
  }

  lemma AllocateKeeps(s: State, t: nat, s': State, slot: nat, giveUp: bool)
    requires Inv(s) && TryAllocate(s, t, s', slot, giveUp)
    ensures Inv(s') && Grows(s, s')
  {
    var pc := s.threads[t];
    assert ThreadOk(s, pc);
    if giveUp {
      LocalStep(s, t, s', s'.threads[t]);
    } else if s' != s {
      StateUpdated(WordOf(s, slot), EMPTY, CONSTRUCTING);
      StateGrows(s, s', slot, CONSTRUCTING);
      StateChains(s, s', slot, CONSTRUCTING);
      forall b: nat
        ensures !InChain(s, b, slot)
      {
        if InChain(s, b, slot) { ChainMember(s, b, slot); }
      }
      ThreadStays(s, s', pc);
      TakenOwners(s, t, s', slot);
      StepKeeps(s, t, s', s'.threads[t]);
    }
  }

  lemma TakenOwners(s: State, t: nat, s': State, slot: nat)
    requires OwnersOk(s) && t in s.threads && StateOnly(s, s', slot, CONSTRUCTING) && StateOf(WordOf(s, slot)) == EMPTY
    requires t in s'.threads && s'.threads == s.threads[t := s'.threads[t]] && Own(s'.threads[t]) == slot
    requires forall b: nat :: !InChain(s, b, slot)
    ensures OwnersOk(s')
  {
    StateGrows(s, s', slot, CONSTRUCTING);
  }

  /** The owner of a slot gives it up: as linked, or as empty if it never was linked. */
  lemma GivenOwners(s: State, t: nat, s': State, slot: nat, after: nat, pc: Pc)
    requires OwnersOk(s) && t in s.threads && Own(s.threads[t]) == slot != 0 && StateOnly(s, s', slot, after)
    requires s'.threads == s.threads[t := pc] && Own(pc) == 0
    ensures OwnersOk(s')
  {
    StateGrows(s, s', slot, after);
  }

  lemma MarkKeeps(s: State, t: nat, s': State)
    requires Inv(s) && DoMark(s, t, s')
    ensures Inv(s') && Grows(s, s')
  {
    var idx := s.threads[t].idx;
    assert ThreadOk(s, s.threads[t]);
    StateUpdated(WordOf(s, idx), CONSTRUCTING, LINKED);
    StateGrows(s, s', idx, LINKED);
    StateChains(s, s', idx, LINKED);
    GivenOwners(s, t, s', idx, LINKED, s'.threads[t]);
    StepKeeps(s, t, s', s'.threads[t]);
  }

  lemma UndoKeeps(s: State, t: nat, s': State)
    requires Inv(s) && DoUndo(s, t, s')
    ensures Inv(s') && Grows(s, s')
  {
    var idx := s.threads[t].idx;
    assert ThreadOk(s, s.threads[t]);
    StateUpdated(WordOf(s, idx), CONSTRUCTING, EMPTY);
    StateGrows(s, s', idx, EMPTY);
    StateChains(s, s', idx, EMPTY);
    GivenOwners(s, t, s', idx, EMPTY, s'.threads[t]);
    StepKeeps(s, t, s', s'.threads[t]);
  }

  // ----- steps on a slot that is in no chain yet

  lemma OwnChanged(s: State, t: nat, s': State, idx: nat, pc: Pc)
    requires Inv(s) && t in s.threads && Own(s.threads[t]) == idx != 0 && !s.threads[t].Mark? && idx < |s.slots|
    requires |s'.slots| == |s.slots| && s' == WithPc(WithSlot(s, idx, s'.slots[idx]), t, pc)
    requires WordOf(s', idx) == WordOf(s, idx) && Own(pc) == idx && !pc.Mark?
    ensures ChainsOk(s') && Grows(s, s') && OwnersOk(s') && OthersKept(s, s', idx)
  {
    forall b: nat, j: nat
      ensures InChain(s', b, j) == InChain(s, b, j)
    {
    }
    forall b: nat | b < |s'.slots|
      ensures ChainOk(s', b)
    {
      assert !InChain(s, b, idx);
      forall j: nat | j in s.chains[b] && j < |s.slots|
        ensures j != idx && Occupied(WordOf(s', j))
      {
        assert InChain(s, b, j);
        ChainMember(s, b, j);
      }
      ChainSame(s, s', b);
    }
  }

  lemma ConstructKeeps(s: State, t: nat, s': State, throws: bool)
    requires Inv(s) && DoConstruct(s, t, s', throws)
    ensures Inv(s') && Grows(s, s')
  {
    var pc := s.threads[t];
    assert ThreadOk(s, pc);
    if throws {
      LocalStep(s, t, s', s'.threads[t]);
    } else {
      OwnChanged(s, t, s', pc.job.idx, s'.threads[t]);
      JobStays(s, s', pc.job);
      NotAmongStays(s, s', pc.job.key, 0, pc.from);
      StepKeeps(s, t, s', s'.threads[t]);
    }
  }

  lemma SetNextKeeps(s: State, t: nat, s': State)
    requires Inv(s) && DoSetNext(s, t, s')
    ensures Inv(s') && Grows(s, s')
  {
    var pc := s.threads[t];
    assert ThreadOk(s, pc);
    OwnChanged(s, t, s', pc.job.idx, s'.threads[t]);
    JobStays(s, s', pc.job);
    NotAmongStays(s, s', pc.job.key, 0, pc.from);
    StepKeeps(s, t, s', s'.threads[t]);
  }

  // ----- the compare-and-swap that links a slot

  /** An unchanged word means an unchanged chain, so the key is not in it. */
  lemma StillMissing(s: State, job: Job, from: nat)
    requires ChainsOk(s) && JobOk(s, job) && job.seen <= from && NotAmong(s, job.key, 0, from)
    requires Head(WordOf(s, KeyToSlotIdx(s, job.key))) == Head(job.prev)
    ensures job.seen == from == |ChainOf(s, job.key)|
  {
    var b := KeyToSlotIdx(s, job.key);
    var ids := s.chains[b];
    assert ChainOk(s, b);
    assert |ids| > 0 ==> MemberOk(s, b, |ids| - 1);
    if job.seen > 0 {
      assert MemberOk(s, b, job.seen - 1);
      assert ids[..job.seen][job.seen - 1] == ids[job.seen - 1];
    }
  }

  /** The new slot's chain: one longer, with a new key at the end. */
  lemma Linked(s: State, t: nat, s': State)
    requires Inv(s) && DoSwap(s, t, s') && WordOf(s, KeyToSlotIdx(s, s.threads[t].job.key)) == s.threads[t].job.prev
    ensures ChainOk(s', KeyToSlotIdx(s, s.threads[t].job.key))
  {
    var pc := s.threads[t];
    var job := pc.job;
    assert ThreadOk(s, pc);
    var b := KeyToSlotIdx(s, job.key);
    assert ChainOk(s, b);
    StillMissing(s, job, pc.from);
    WordParts(job.idx, if b == job.idx then LINKED else StateOf(job.prev));
    var ids, ids' := s.chains[b], s'.chains[b];
    assert !InChain(s, b, job.idx);
    forall j: nat | j < |ids'|
      ensures MemberOk(s', b, j)
    {
      if j < |ids| {
        assert MemberOk(s, b, j);
        assert InChain(s, b, ids[j]);
        assert ids'[..j] == ids[..j];
        WordKept(s, s', b, ids[j], job);
      } else {
        assert ids'[..j] == ids;
        assert ids[..job.seen] == ids;
        WordKept(s, s', b, job.idx, job);
      }
    }
    forall i: nat, j: nat | i < j < |ids'|
      ensures s'.slots[ids'[i]].key != s'.slots[ids'[j]].key
    {
      assert MemberOk(s, b, i);
      if j < |ids| { assert MemberOk(s, b, j); }
    }
  }

  /** Linking leaves every occupied slot occupied. */
  lemma WordKept(s: State, s': State, b: nat, i: nat, job: Job)
    requires |s'.slots| == |s.slots| && b < |s.slots| && i < |s.slots| && WordOf(s, b) == job.prev
    requires Occupied(WordOf(s, i))
    requires s'.slots == s.slots[b := s.slots[b].(headAndState := 4 * job.idx + (if b == job.idx then LINKED else StateOf(job.prev)))]
    ensures Occupied(WordOf(s', i))
  {
    WordParts(job.idx, if b == job.idx then LINKED else StateOf(job.prev));
  }

  lemma SwapGrows(s: State, t: nat, s': State)
    requires Inv(s) && DoSwap(s, t, s') && WordOf(s, KeyToSlotIdx(s, s.threads[t].job.key)) == s.threads[t].job.prev
    ensures Grows(s, s') && OthersKept(s, s', 0)
  {
  }

  lemma SwapChains(s: State, t: nat, s': State)
    requires Inv(s) && DoSwap(s, t, s') && WordOf(s, KeyToSlotIdx(s, s.threads[t].job.key)) == s.threads[t].job.prev
    ensures ChainsOk(s')
  {
    var job := s.threads[t].job;
    var slot := KeyToSlotIdx(s, job.key);
    Linked(s, t, s');
    forall b: nat | b < |s'.slots|
      ensures ChainOk(s', b)
    {
      if b != slot {
        forall i: nat | i in s.chains[b] && i < |s.slots|
          ensures Occupied(WordOf(s', i))
        {
          assert InChain(s, b, i);
          ChainMember(s, b, i);
          WordKept(s, s', slot, i, job);
        }
        ChainSame(s, s', b);
      }
    }
  }

  lemma SwapOwners(s: State, t: nat, s': State)
    requires Inv(s) && DoSwap(s, t, s') && WordOf(s, KeyToSlotIdx(s, s.threads[t].job.key)) == s.threads[t].job.prev
    ensures OwnersOk(s')
  {
    hide ChainsOk, JobOk, NotAmong;
    assert ThreadOk(s, s.threads[t]);
    LinkedOwners(s, t, s', KeyToSlotIdx(s, s.threads[t].job.key));
  }

  lemma LinkedOwners(s: State, t: nat, s': State, slot: nat)
    requires OwnersOk(s) && t in s.threads && s.threads[t].Swap? && HasKey(s, s.threads[t].job)
    requires DoSwap(s, t, s') && slot == KeyToSlotIdx(s, s.threads[t].job.key) && WordOf(s, slot) == s.threads[t].job.prev
    ensures OwnersOk(s')
  {
    var job := s.threads[t].job;
    WordParts(job.idx, if slot == job.idx then LINKED else StateOf(job.prev));
    forall b: nat, i: nat
      ensures InChain(s', b, i) <==> InChain(s, b, i) || (b == slot && i == job.idx)
    {
    }
    assert OwnerOk(s, s.threads[t]);
    forall u | u in s'.threads
      ensures OwnerOk(s', s'.threads[u])
    {
      assert OwnerOk(s, s.threads[u]);
    }
  }

  lemma SwapKeeps(s: State, t: nat, s': State)
    requires Inv(s) && DoSwap(s, t, s')
    ensures Inv(s') && Grows(s, s')
  {
    var pc := s.threads[t];
    assert ThreadOk(s, pc);
    var job := pc.job;
    var slot := KeyToSlotIdx(s, job.key);
    if WordOf(s, slot) == job.prev {
      SwapGrows(s, t, s');
      SwapChains(s, t, s');
      SwapOwners(s, t, s');
      StepKeeps(s, t, s', s'.threads[t]);
    } else {
      assert ChainOk(s, slot);
      assert s.chains[slot][..|s.chains[slot]|] == s.chains[slot];
      LocalStep(s, t, s', s'.threads[t]);
    }
  }

  // ----- every step

  lemma NextKeeps(s: State, t: nat, a: Action, s': State)
    requires Inv(s) && Next(s, t, a, s')
    ensures Inv(s') && Grows(s, s')
  {
    hide Inv, Grows, StartInsert, ReadHead, ScanOne, TryAllocate, DoConstruct, DoSetNext, DoSwap, DoMark, DoUndo, StartFind, DoLookHead,
         DoLook, DoAnswer;
    match a
    case ToInsert(key) => StartInsertKeeps(s, t, s', key);
    case ToReadHead => ReadHeadKeeps(s, t, s');
    case ToScan => ScanOneKeeps(s, t, s');
    case ToAllocate(slot, giveUp) => AllocateKeeps(s, t, s', slot, giveUp);
    case ToConstruct(throws) => ConstructKeeps(s, t, s', throws);
    case ToSetNext => SetNextKeeps(s, t, s');
    case ToSwap => SwapKeeps(s, t, s');
    case ToMark => MarkKeeps(s, t, s');
    case ToUndo => UndoKeeps(s, t, s');
    case ToFind(key) => StartFindKeeps(s, t, s', key);
    case ToLookHead => LookHeadKeeps(s, t, s');
    case ToLook => LookKeeps(s, t, s');
    case ToAnswer => AnswerKeeps(s, t, s');
  }

  lemma InitHolds(s: State)
    requires Init(s)
    ensures Inv(s)
  {
    forall b: nat | b < |s.slots|
      ensures ChainOk(s, b)
    {
    }
  }
}
