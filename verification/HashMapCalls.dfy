/** What a call of insert or of erase has done when it is over, and what its answer means. */
module HashMapCalls {
  import opened HashMapState
  import opened HashMapProofs
  import opened HashMapRuns
  import opened HashMapLookup

  datatype Op = Insert | Erase

  /** Thread t begins to insert or to erase the key with the a-th move, and is done in the b-th state. */
  ghost predicate IsCall(states: seq<State>, moves: seq<Move>, t: nat, op: Op, key: int, a: nat, b: nat) {
    && IsRun(states, moves) && a < b < |states|
    && moves[a] == Move(t, match op case Insert => ToStart(key) case Erase => ToStartErase(key))
    && (forall i | a < i < b :: t in states[i].threads && !states[i].threads[t].Idle?)
    && t in states[b].threads && states[b].threads[t].Idle?
  }

  // ----- what a step does to a key

  predicate Writes(s: State, s': State, key: int, i: nat, c: nat) {
    !LiveAt(s, key, i, c) && LiveAt(s', key, i, c)
  }

  ghost predicate Erases(s: State, s': State, key: int) {
    exists i: nat, c: nat :: LiveAt(s, key, i, c) && !LiveAt(s', key, i, c)
  }

  /** One of t's own steps from a on and before b has written the key there. */
  ghost predicate WrittenBy(states: seq<State>, moves: seq<Move>, t: nat, key: int, i: nat, c: nat, a: nat, b: nat)
    requires b < |states| == |moves| + 1
  {
    exists j :: a <= j < b && moves[j].thread == t && Writes(states[j], states[j + 1], key, i, c)
  }

  ghost predicate ErasedBy(states: seq<State>, moves: seq<Move>, t: nat, key: int, a: nat, b: nat)
    requires b < |states| == |moves| + 1
  {
    exists j :: a <= j < b && moves[j].thread == t && Erases(states[j], states[j + 1], key)
  }

  ghost predicate ThrownBy(moves: seq<Move>, t: nat, a: nat, b: nat) {
    exists j :: a <= j < b && j < |moves| && moves[j] == Move(t, ToThrow)
  }

  // ----- one step of the call

  predicate IsAnswer(op: Op, answer: Answer) {
    match op
    case Insert => answer.Got? || answer.Threw? || answer.Full?
    case Erase => answer.EraseDone?
  }

  /** The places such a call can be at. */
  predicate AtCall(op: Op, key: int, pc: Pc) {
    match pc
    case Idle(answer) => IsAnswer(op, answer)
    case Claim(k, _) => op.Insert? && k == key
    case Build(k, _) => op.Insert? && k == key
    case Publish(k, _) => op.Insert? && k == key
    case Await(k, _) => op.Insert? && k == key
    case Again(k) => op.Insert? && k == key
    case EraseLook(job) => op.Erase? && job.key == key
    case EraseSwap(job) => op.Erase? && job.key == key
    case EraseCount(job) => op.Erase? && job.key == key
    case _ => op.Insert? && pc.job.key == key
  }

  /** The call has written its key there. */
  predicate HasWritten(s: State, pc: Pc, i: nat, c: nat) {
    match pc
    case Idle(answer) => answer == Got(i, c, true)
    case Landed(job) => JobFits(s, job) && job.sub == i && CellIdx(s, job) == c
    case Count(job) => JobFits(s, job) && job.sub == i && CellIdx(s, job) == c
    case MarkFull(job) => JobFits(s, job) && job.sub == i && CellIdx(s, job) == c
    case _ => false
  }

  predicate HasErased(pc: Pc) {
    pc.EraseCount? || pc == Idle(EraseDone(true))
  }

  predicate HasThrown(pc: Pc) {
    pc.ThrowDrop? || pc == Idle(Threw)
  }

  lemma CallStep(s: State, t: nat, act: Action, s': State, op: Op, key: int)
    requires Next(s, t, act, s') && t in s.threads && !s.threads[t].Idle? && AtCall(op, key, s.threads[t])
    ensures t in s'.threads && AtCall(op, key, s'.threads[t])
    ensures HasThrown(s'.threads[t]) <==> HasThrown(s.threads[t]) || act.ToThrow?
  {
    hide Next, AtCall, HasThrown;
    StaysAtCall(s, t, act, s', op, key);
    ThrowStep(s, t, act, s');
  }

  lemma StaysAtCall(s: State, t: nat, act: Action, s': State, op: Op, key: int)
    requires Next(s, t, act, s') && t in s.threads && !s.threads[t].Idle? && AtCall(op, key, s.threads[t])
    ensures t in s'.threads && AtCall(op, key, s'.threads[t])
  {
    hide Next, AtCall;
    if act.ToUnannounce? || act.ToTryLock? || act.ToWrite? || act.ToThrow? || act.ToCount? || act.ToMarkFull? || act.ToWait?
       || act.ToCompare? || act.ToEraseLook? || act.ToEraseSwap? || act.ToEraseCount? {
      LateAtCall(s, t, act, s', op, key);
    } else {
      EarlyAtCall(s, t, act, s', op, key);
    }
  }

  lemma EarlyAtCall(s: State, t: nat, act: Action, s': State, op: Op, key: int)
    requires Next(s, t, act, s') && t in s.threads && !s.threads[t].Idle? && AtCall(op, key, s.threads[t])
    requires !act.ToUnannounce? && !act.ToTryLock? && !act.ToWrite? && !act.ToThrow? && !act.ToCount? && !act.ToMarkFull?
    requires !act.ToWait? && !act.ToCompare? && !act.ToEraseLook? && !act.ToEraseSwap? && !act.ToEraseCount?
    ensures t in s'.threads && AtCall(op, key, s'.threads[t])
  {
    hide ProbeAt, NextPowTwo, EmptyMap, WithMap, WithCell;
  }

  lemma LateAtCall(s: State, t: nat, act: Action, s': State, op: Op, key: int)
    requires Next(s, t, act, s') && t in s.threads && AtCall(op, key, s.threads[t])
    requires act.ToUnannounce? || act.ToTryLock? || act.ToWrite? || act.ToThrow? || act.ToCount? || act.ToMarkFull? || act.ToWait?
             || act.ToCompare? || act.ToEraseLook? || act.ToEraseSwap? || act.ToEraseCount?
    ensures t in s'.threads && AtCall(op, key, s'.threads[t])
  {
    hide ProbeAt, NextPowTwo, EmptyMap, WithMap, WithCell;
  }

  lemma ThrowStep(s: State, t: nat, act: Action, s': State)
    requires Next(s, t, act, s') && t in s.threads && !s.threads[t].Idle?
    ensures t in s'.threads && (HasThrown(s'.threads[t]) <==> HasThrown(s.threads[t]) || act.ToThrow?)
  {
    hide ProbeAt, NextPowTwo, EmptyMap, WithMap, WithCell;
  }

  /** Keys only appear where they are written. */
  lemma NoWrite(s: State, t: nat, act: Action, s': State, key: int, i: nat, c: nat)
    requires Next(s, t, act, s') && !act.ToWrite?
    ensures !Writes(s, s', key, i, c)
  {
    hide ProbeAt;
  }

  lemma WriteStep(s: State, t: nat, s': State, key: int, i: nat, c: nat)
    requires WritersOk(s) && DoWrite(s, t, s') && s.threads[t].job.key == key
    ensures t in s'.threads && !HasWritten(s, s.threads[t], i, c)
    ensures HasWritten(s', s'.threads[t], i, c) <==> Writes(s, s', key, i, c)
  {
    hide ProbeAt;
    var job := s.threads[t].job;
    assert WritesAt(s, t, job.sub, CellIdx(s, job));
  }

  lemma StaysWritten(s: State, s': State, pc: Pc, i: nat, c: nat)
    requires AllEvolve(s, s')
    requires pc.Landed? || pc.Count? || pc.MarkFull? ==> JobFits(s, pc.job)
    ensures HasWritten(s', pc, i, c) <==> HasWritten(s, pc, i, c)
  {
    hide ProbeAt;
  }

  /** What a step other than the writing one remembers of what was written. */
  lemma OtherStep(s: State, t: nat, act: Action, s': State, i: nat, c: nat)
    requires Next(s, t, act, s') && t in s.threads && !s.threads[t].Idle? && !act.ToWrite?
    ensures t in s'.threads && (HasWritten(s, s'.threads[t], i, c) <==> HasWritten(s, s.threads[t], i, c))
  {
    hide ProbeAt, NextPowTwo, EmptyMap, WithMap, WithCell;
  }

  lemma LateStep(s: State, t: nat, act: Action, s': State)
    requires Next(s, t, act, s') && t in s.threads && !act.ToWrite?
    ensures t in s'.threads
    ensures var pc := s'.threads[t]; pc.Landed? || pc.Count? || pc.MarkFull? ==> pc.job == s.threads[t].job && !s.threads[t].Write?
  {
    hide ProbeAt, NextPowTwo, EmptyMap, WithMap, WithCell;
  }

  lemma LateFits(s: State, t: nat)
    requires Inv(s) && t in s.threads
    ensures var pc := s.threads[t]; pc.Landed? || pc.Count? || pc.MarkFull? ==> JobFits(s, pc.job)
    ensures WritersOk(s)
  {
    ThreadKnown(s, t);
  }

  lemma InsertStep(s: State, t: nat, act: Action, s': State, key: int, i: nat, c: nat)
    requires Inv(s) && Inv(s') && AllEvolve(s, s') && Next(s, t, act, s') && t in s.threads && !s.threads[t].Idle?
    requires AtCall(Insert, key, s.threads[t])
    ensures t in s'.threads
    ensures HasWritten(s', s'.threads[t], i, c) <==> HasWritten(s, s.threads[t], i, c) || Writes(s, s', key, i, c)
  {
    hide Inv, AllEvolve, Writes, HasWritten, DoWrite;
    LateFits(s, t);
    if act.ToWrite? {
      Writer(s, t, act, s', key);
      WriteStep(s, t, s', key, i, c);
    } else {
      hide Next;
      NoWrite(s, t, act, s', key, i, c);
      OtherStep(s, t, act, s', i, c);
      LateStep(s, t, act, s');
      StaysWritten(s, s', s'.threads[t], i, c);
    }
  }

  lemma Writer(s: State, t: nat, act: Action, s': State, key: int)
    requires Next(s, t, act, s') && act.ToWrite? && t in s.threads && AtCall(Insert, key, s.threads[t])
    ensures DoWrite(s, t, s') && s.threads[t].job.key == key
  {
    hide ProbeAt;
  }

  lemma EraseStep(s: State, t: nat, act: Action, s': State, key: int)
    requires Next(s, t, act, s') && t in s.threads && !s.threads[t].Idle? && AtCall(Erase, key, s.threads[t])
    ensures t in s'.threads && (HasErased(s'.threads[t]) <==> HasErased(s.threads[t]) || Erases(s, s', key))
  {
    hide ProbeAt;
    if act.ToEraseSwap? {
      var job := s.threads[t].job;
      if CellOf(s, job) == Holds(key) {
        assert LiveAt(s, key, job.sub, CellIdx(s, job)) && !LiveAt(s', key, job.sub, CellIdx(s, job));
      }
    }
  }

  // ----- all along the call

  lemma StartStep(s: State, t: nat, act: Action, s': State, op: Op, key: int)
    requires Next(s, t, act, s') && act == (match op case Insert => ToStart(key) case Erase => ToStartErase(key))
    ensures t in s'.threads && s'.slots == s.slots && AtCall(op, key, s'.threads[t]) && !s'.threads[t].Idle?
    ensures s'.threads[t].Look? || s'.threads[t].EraseLook?
  {
  }

  lemma SameSlots(s: State, s': State, key: int, i: nat, c: nat)
    requires s'.slots == s.slots
    ensures LiveAt(s', key, i, c) == LiveAt(s, key, i, c)
  {
  }

  lemma {:induction false} CallRuns(states: seq<State>, moves: seq<Move>, t: nat, op: Op, key: int, a: nat, b: nat, j: nat)
    requires IsCall(states, moves, t, op, key, a, b) && a < j <= b
    ensures t in states[j].threads && AtCall(op, key, states[j].threads[t])
    ensures HasThrown(states[j].threads[t]) <==> ThrownBy(moves, t, a, j)
  {
    hide Inv, Init, Next, AtCall, HasThrown;
    StartStep(states[a], t, moves[a].action, states[a + 1], op, key);
    if j == a + 1 {
      NotThrown(states[j].threads[t]);
    } else {
      var i := j - 1;
      CallRuns(states, moves, t, op, key, a, b, i);
      if moves[i].thread == t {
        CallStep(states[i], t, moves[i].action, states[j], op, key);
      } else {
        OthersStay(states[i], moves[i].thread, moves[i].action, states[j], t);
      }
    }
  }

  lemma NotThrown(pc: Pc)
    requires pc.Look? || pc.EraseLook?
    ensures !HasThrown(pc) && !HasErased(pc)
  {
  }

  lemma {:induction false} InsertRuns(states: seq<State>, moves: seq<Move>, t: nat, key: int, a: nat, b: nat, j: nat, i: nat, c: nat)
    requires IsCall(states, moves, t, Insert, key, a, b) && a < j <= b
    ensures t in states[j].threads
    ensures HasWritten(states[j], states[j].threads[t], i, c) <==> WrittenBy(states, moves, t, key, i, c, a, j)
  {
    hide Inv, Init, Next, AtCall, HasWritten, LiveAt, AllEvolve;
    StartStep(states[a], t, moves[a].action, states[a + 1], Insert, key);
    var k := j - 1;
    if k == a {
      SameSlots(states[a], states[j], key, i, c);
      NotWritten(states[j], states[j].threads[t], i, c);
    } else {
      InsertRuns(states, moves, t, key, a, b, k, i, c);
      CallRuns(states, moves, t, Insert, key, a, b, k);
      RunKeeps(states, moves, k);
      RunKeeps(states, moves, j);
      RunEvolves(states, moves, k, j);
      if moves[k].thread == t {
        InsertStep(states[k], t, moves[k].action, states[j], key, i, c);
      } else {
        OthersStay(states[k], moves[k].thread, moves[k].action, states[j], t);
        LateFits(states[k], t);
        StaysWritten(states[k], states[j], states[k].threads[t], i, c);
      }
    }
  }

  lemma NotWritten(s: State, pc: Pc, i: nat, c: nat)
    requires pc.Look? || pc.EraseLook?
    ensures !HasWritten(s, pc, i, c)
  {
  }

  lemma {:induction false} EraseRuns(states: seq<State>, moves: seq<Move>, t: nat, key: int, a: nat, b: nat, j: nat)
    requires IsCall(states, moves, t, Erase, key, a, b) && a < j <= b
    ensures t in states[j].threads
    ensures HasErased(states[j].threads[t]) <==> ErasedBy(states, moves, t, key, a, j)
  {
    hide Inv, Init, Next, AtCall, HasErased, Erases;
    StartStep(states[a], t, moves[a].action, states[a + 1], Erase, key);
    var k := j - 1;
    if k == a {
      NoErase(states[a], states[j], key);
      NotThrown(states[j].threads[t]);
    } else {
      EraseRuns(states, moves, t, key, a, b, k);
      CallRuns(states, moves, t, Erase, key, a, b, k);
      if moves[k].thread == t {
        EraseStep(states[k], t, moves[k].action, states[j], key);
      } else {
        OthersStay(states[k], moves[k].thread, moves[k].action, states[j], t);
      }
    }
  }

  lemma NoErase(s: State, s': State, key: int)
    requires s'.slots == s.slots
    ensures !Erases(s, s', key)
  {
  }

  // ----- what the answers mean

  /** An insert answers "inserted", with a cell, exactly if its own thread wrote the key into that cell. */
  lemma InsertedIt(states: seq<State>, moves: seq<Move>, t: nat, key: int, a: nat, b: nat, i: nat, c: nat)
    requires IsCall(states, moves, t, Insert, key, a, b)
    ensures states[b].threads[t].Idle? && IsAnswer(Insert, states[b].threads[t].last)
    ensures WrittenBy(states, moves, t, key, i, c, a, b) <==> states[b].threads[t].last == Got(i, c, true)
    ensures ThrownBy(moves, t, a, b) <==> states[b].threads[t].last == Threw
  {
    hide IsRun, WrittenBy, ThrownBy;
    CallRuns(states, moves, t, Insert, key, a, b, b);
    InsertRuns(states, moves, t, key, a, b, b, i, c);
  }

  /** An erase answers "erased" exactly if its own thread erased the key. */
  lemma ErasedIt(states: seq<State>, moves: seq<Move>, t: nat, key: int, a: nat, b: nat)
    requires IsCall(states, moves, t, Erase, key, a, b)
    ensures states[b].threads[t].Idle?
    ensures states[b].threads[t].last == EraseDone(ErasedBy(states, moves, t, key, a, b))
  {
    hide IsRun, ErasedBy;
    CallRuns(states, moves, t, Erase, key, a, b, b);
    EraseRuns(states, moves, t, key, a, b, b);
  }

  // ----- no room for another array

  /** A map that cannot grow has one array; whoever wants another one has been through the first. */
  ghost predicate GrowthOk(s: State) {
    && (!s.setup.canGrow ==> s.published == 1 && forall t | t in s.threads :: !Building(s.threads[t]))
    && (forall t | t in s.threads && s.threads[t].Claim? :: s.threads[t].next >= 1)
  }

  lemma NextGrowthOk(s: State, t: nat, act: Action, s': State)
    requires GrowthOk(s) && Next(s, t, act, s')
    ensures GrowthOk(s')
  {
    hide ProbeAt, NextPowTwo, EmptyMap;
  }

  lemma {:induction false} RunGrowthOk(states: seq<State>, moves: seq<Move>, i: nat)
    requires IsRun(states, moves) && i < |states|
    ensures GrowthOk(states[i])
  {
    hide Next, GrowthOk;
    if i == 0 {
      InitGrowthOk(states[0]);
    } else {
      RunGrowthOk(states, moves, i - 1);
      NextGrowthOk(states[i - 1], moves[i - 1].thread, moves[i - 1].action, states[i]);
    }
  }

  lemma InitGrowthOk(s: State)
    requires Init(s)
    ensures GrowthOk(s)
  {
  }

  /** All the arrays there can be are there, or there can be one only. */
  predicate NoRoom(s: State) {
    s.published == NUM_SUB_MAPS || !s.setup.canGrow
  }

  /** An insert that is refused for want of room has looked into every array. */
  lemma RefusedAbsent(s: State, t: nat, key: int)
    requires Inv(s) && NewIsEmpty(s) && GrowthOk(s) && t in s.threads && s.threads[t].Claim? && s.threads[t].key == key
    requires s.threads[t].next >= NUM_SUB_MAPS || s.threads[t].next >= |s.slots| || !s.setup.canGrow
    ensures NoRoom(s) && NowhereLive(s, key)
  {
    hide CountsOk, WritersOk, BuilderOk, ThreadOk, NewIsEmpty, KeysOk, Barred;
    ThreadKnown(s, t);
    assert s.published <= s.threads[t].next && BarredBefore(s, s.threads[t].next, key) by { Refused(s, t); }
    forall i: nat, c: nat
      ensures !LiveAt(s, key, i, c)
    {
      if LiveAt(s, key, i, c) {
        LiveIsPublished(s, key, i, c);
        NotBarred(s, i, c, key);
      }
    }
  }

  lemma Refused(s: State, t: nat)
    requires SlotsOk(s) && GrowthOk(s) && t in s.threads && ThreadOk(s, s.threads[t]) && s.threads[t].Claim?
    requires s.threads[t].next >= NUM_SUB_MAPS || s.threads[t].next >= |s.slots| || !s.setup.canGrow
    ensures s.published <= s.threads[t].next && BarredBefore(s, s.threads[t].next, s.threads[t].key) && NoRoom(s)
  {
    hide KeysOk, BarredBefore;
  }

  // ----- the moment at which an answer is true

  ghost predicate IsMoment(states: seq<State>, moves: seq<Move>, t: nat, key: int, answer: Answer, j: nat)
    requires j < |states| == |moves| + 1
  {
    match answer
    case Got(i, c, inserted) =>
      if inserted then
        j < |moves| && moves[j] == Move(t, ToWrite) && NowhereLive(states[j], key) && LiveAt(states[j + 1], key, i, c)
      else LiveAt(states[j], key, i, c)
    case Threw => j < |moves| && moves[j] == Move(t, ToThrow)
    case Full => NoRoom(states[j]) && NowhereLive(states[j], key)
    case EraseDone(erased) =>
      if erased then
        j < |moves| && moves[j].thread == t && Erases(states[j], states[j + 1], key) && NowhereLive(states[j + 1], key)
      else NowhereLive(states[j], key)
    case None => false
  }

  /** The step that writes a key takes no other out. */
  lemma WritesOne(s: State, t: nat, act: Action, s': State, key: int, i: nat, c: nat, j: nat, d: nat)
    requires WritersOk(s) && Next(s, t, act, s') && Writes(s, s', key, i, c) && LiveAt(s, key, j, d)
    ensures LiveAt(s', key, j, d)
  {
    hide WritersOk, ProbeAt;
    if !act.ToWrite? { NoWrite(s, t, act, s', key, i, c); } else { OwnCell(s, t, s'); }
  }

  lemma OwnCell(s: State, t: nat, s': State)
    requires WritersOk(s) && DoWrite(s, t, s')
    ensures CellOf(s, s.threads[t].job) == Locked
  {
    hide ProbeAt;
    var job := s.threads[t].job;
    assert WritesAt(s, t, job.sub, CellIdx(s, job));
  }

  lemma WrittenMoment(states: seq<State>, moves: seq<Move>, t: nat, key: int, i: nat, c: nat, a: nat, b: nat) returns (j: nat)
    requires IsRun(states, moves) && b < |states| && WrittenBy(states, moves, t, key, i, c, a, b)
    ensures a <= j < b && IsMoment(states, moves, t, key, Got(i, c, true), j)
  {
    hide Inv, Init, Next, LiveAt;
    j :| a <= j < b && moves[j].thread == t && Writes(states[j], states[j + 1], key, i, c);
    if !moves[j].action.ToWrite? { NoWrite(states[j], t, moves[j].action, states[j + 1], key, i, c); }
    RunKeeps(states, moves, j);
    forall k: nat, d: nat
      ensures !LiveAt(states[j], key, k, d)
    {
      if LiveAt(states[j], key, k, d) {
        WritersSound(states[j]);
        WritesOne(states[j], t, moves[j].action, states[j + 1], key, i, c, k, d);
        OneLive(states, moves, j + 1, key, i, c, k, d);
      }
    }
  }

  lemma WritersSound(s: State)
    requires Inv(s)
    ensures WritersOk(s)
  {
  }

  lemma ErasedMoment(states: seq<State>, moves: seq<Move>, t: nat, key: int, a: nat, b: nat) returns (j: nat)
    requires IsRun(states, moves) && b < |states| && ErasedBy(states, moves, t, key, a, b)
    ensures a <= j < b && IsMoment(states, moves, t, key, EraseDone(true), j)
  {
    hide Inv, Init, Next, LiveAt;
    j :| a <= j < b && moves[j].thread == t && Erases(states[j], states[j + 1], key);
    var i: nat, c: nat :| LiveAt(states[j], key, i, c) && !LiveAt(states[j + 1], key, i, c);
    var k := GoneSometime(states, moves, j, j + 1, key, i, c);
  }

  /** The last step of an insert that found its key, or no room. */
  lemma LastStep(s: State, t: nat, act: Action, s': State, key: int)
    requires Inv(s) && NewIsEmpty(s) && GrowthOk(s) && Next(s, t, act, s') && t in s.threads && t in s'.threads
    requires AtCall(Insert, key, s.threads[t]) && !s.threads[t].Idle? && s'.threads[t].Idle?
    ensures
      var answer := s'.threads[t].last;
      && (answer.Got? && !answer.inserted ==> LiveAt(s, key, answer.sub, answer.idx))
      && (answer.Full? ==> NoRoom(s) && NowhereLive(s, key))
  {
    hide Inv, NewIsEmpty, GrowthOk, ProbeAt, NextPowTwo, NoRoom, NowhereLive;
    if act.ToClaim? && s'.threads[t] == Idle(Full) { RefusedAbsent(s, t, key); }
  }

  /** While it has erased nothing, an erase is still looking. */
  lemma StillErasing(states: seq<State>, moves: seq<Move>, t: nat, key: int, a: nat, b: nat)
    requires IsCall(states, moves, t, Erase, key, a, b) && states[b].threads[t].last == EraseDone(false)
    ensures IsErase(states, moves, t, key, a, b) && !Erasing(states[b].threads[t], key)
  {
    hide Init, Next, ErasedBy, AtCall;
    forall k | a < k < b
      ensures t in states[k].threads && Erasing(states[k].threads[t], key)
    {
      CallRuns(states, moves, t, Erase, key, a, b, k);
      EraseRuns(states, moves, t, key, a, b, k);
      EraseRuns(states, moves, t, key, a, b, b);
      ErasedOn(states, moves, t, key, a, k, b);
      Looking(states[k].threads[t], key);
    }
    NotIdleYet(states, moves, t, key, a);
  }

  lemma NotIdleYet(states: seq<State>, moves: seq<Move>, t: nat, key: int, a: nat)
    requires IsRun(states, moves) && a < |moves| && moves[a] == Move(t, ToStartErase(key))
    ensures t in states[a + 1].threads && !states[a + 1].threads[t].Idle?
  {
    StartStep(states[a], t, moves[a].action, states[a + 1], Erase, key);
  }

  lemma ErasedOn(states: seq<State>, moves: seq<Move>, t: nat, key: int, a: nat, k: nat, b: nat)
    requires k <= b < |states| == |moves| + 1
    ensures ErasedBy(states, moves, t, key, a, k) ==> ErasedBy(states, moves, t, key, a, b)
  {
    hide Erases;
  }

  lemma Looking(pc: Pc, key: int)
    requires AtCall(Erase, key, pc) && !pc.Idle? && !HasErased(pc)
    ensures Erasing(pc, key)
  {
  }

  /**
   Every insert and every erase overlaps a moment at which its answer is true: "inserted" is said of the one step, by its
   own thread, before which the key was live nowhere and after which it is in the cell answered with; "already there" of a
   state in which the key was in that cell; "full" of a state in which the key was live nowhere and no array could be
   added; "erased" of the one step, by its own thread, that left the key live nowhere; "not erased" of a state in which
   the key was live nowhere. Otherwise the thread's own constructor threw.
   */
  lemma AnswerIsRight(states: seq<State>, moves: seq<Move>, t: nat, op: Op, key: int, a: nat, b: nat) returns (j: nat)
    requires IsCall(states, moves, t, op, key, a, b)
    ensures a <= j <= b && IsMoment(states, moves, t, key, states[b].threads[t].last, j)
    ensures IsAnswer(op, states[b].threads[t].last)
  {
    hide IsRun, AtCall, WrittenBy, ErasedBy, ThrownBy, NowhereLive, LiveAt, NoRoom, Inv, Next;
    var answer := states[b].threads[t].last;
    CallRuns(states, moves, t, op, key, a, b, b);
    Answers(op, key, states[b].threads[t]);
    match op
    case Insert => j := InsertMoment(states, moves, t, key, a, b);
    case Erase =>
      ErasedIt(states, moves, t, key, a, b);
      if answer.erased {
        j := ErasedMoment(states, moves, t, key, a, b);
      } else {
        j := a;
        if !NowhereLive(states[a], key) {
          var i, c := SomewhereLive(states[a], key);
          StillErasing(states, moves, t, key, a, b);
          EraseErases(states, moves, t, key, a, b, i, c);
          j := GoneSometime(states, moves, a, b, key, i, c);
        }
      }
  }

  lemma Answers(op: Op, key: int, pc: Pc)
    requires AtCall(op, key, pc) && pc.Idle?
    ensures IsAnswer(op, pc.last)
  {
  }

  lemma SomewhereLive(s: State, key: int) returns (i: nat, c: nat)
    requires !NowhereLive(s, key)
    ensures LiveAt(s, key, i, c)
  {
    hide LiveAt;
    i, c :| LiveAt(s, key, i, c);
  }

  lemma InsertMoment(states: seq<State>, moves: seq<Move>, t: nat, key: int, a: nat, b: nat) returns (j: nat)
    requires IsCall(states, moves, t, Insert, key, a, b)
    ensures a <= j <= b && IsMoment(states, moves, t, key, states[b].threads[t].last, j)
  {
    hide Init, Next, AtCall, WrittenBy, NowhereLive, LiveAt, NoRoom, Inv, NewIsEmpty, GrowthOk;
    var answer := states[b].threads[t].last;
    CallRuns(states, moves, t, Insert, key, a, b, b);
    Answers(Insert, key, states[b].threads[t]);
    if answer.Threw? {
      InsertedIt(states, moves, t, key, a, b, 0, 0);
      j :| a <= j < b && j < |moves| && moves[j] == Move(t, ToThrow);
    } else if answer.Got? && answer.inserted {
      InsertedIt(states, moves, t, key, a, b, answer.sub, answer.idx);
      j := WrittenMoment(states, moves, t, key, answer.sub, answer.idx, a, b);
    } else {
      StartStep(states[a], t, moves[a].action, states[a + 1], Insert, key);
      j := b - 1;
      CallRuns(states, moves, t, Insert, key, a, b, j);
      RunKeeps(states, moves, j);
      RunNewIsEmpty(states, moves, j);
      RunGrowthOk(states, moves, j);
      if moves[j].thread != t { OthersStay(states[j], moves[j].thread, moves[j].action, states[b], t); }
      LastStep(states[j], t, moves[j].action, states[b], key);
    }
  }

  /**
   An erase that began while its key was live at a cell ends with the cell erased; if it does not say that it erased the
   key, another thread has erased the cell.
   */
  lemma EraseDoes(states: seq<State>, moves: seq<Move>, t: nat, key: int, a: nat, b: nat, i: nat, c: nat)
    requires IsCall(states, moves, t, Erase, key, a, b) && LiveAt(states[a], key, i, c)
    ensures !LiveAt(states[b], key, i, c)
    ensures states[b].threads[t].last == EraseDone(true) || ErasedByAnother(states, moves, t, key, i, c, a, b)
  {
    hide Init, Next, Inv, LiveAt, ErasedByAnother, AtCall, AllEvolve;
    CallRuns(states, moves, t, Erase, key, a, b, b);
    ErasedIt(states, moves, t, key, a, b);
    if states[b].threads[t].last == EraseDone(true) {
      var j :| a <= j < b && moves[j].thread == t && Erases(states[j], states[j + 1], key);
      var k: nat, d: nat :| LiveAt(states[j], key, k, d) && !LiveAt(states[j + 1], key, k, d);
      if LiveAt(states[b], key, i, c) {
        RunEvolves(states, moves, a, j);
        RunEvolves(states, moves, j, b);
        LiveBetween(states[a], states[j], states[b], key, i, c);
        OneLive(states, moves, j, key, i, c, k, d);
        RunEvolves(states, moves, a, j + 1);
        RunEvolves(states, moves, j + 1, b);
        LiveBetween(states[a], states[j + 1], states[b], key, i, c);
      }
    } else {
      StillErasing(states, moves, t, key, a, b);
      EraseErases(states, moves, t, key, a, b, i, c);
    }
  }
}
