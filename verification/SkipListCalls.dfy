/** What a call of addOrGetData or of remove has done when it is over, and what its answer means. */
module SkipListCalls {
  import opened SkipListState
  import opened SkipListSteps
  import opened SkipListStability
  import opened SkipListProofs
  import opened SkipListRuns
  import opened SkipListLookup

  /** Thread t begins to add or remove data with the a-th move, and is done in the b-th state. */
  ghost predicate IsCall(states: seq<State>, moves: seq<Move>, t: nat, op: Op, data: int, a: nat, b: nat) {
    && IsRun(states, moves) && a < b < |states| && moves[a] == Move(t, ToStart(op, data))
    && (forall i | a < i < b :: t in states[i].threads && !states[i].threads[t].pc.Idle?)
    && t in states[b].threads && states[b].threads[t].pc.Idle?
  }

  /** The step makes n fully linked, for an add, or marks it, for a remove. */
  predicate Changes(op: Op, nodes: seq<Node>, nodes': seq<Node>, n: nat) {
    && n < |nodes'|
    && (if op.Add? then nodes'[n].full else nodes'[n].marked)
    && (n < |nodes| ==> if op.Add? then !nodes[n].full else !nodes[n].marked)
  }

  /** One of t's own steps from a on and before b has done that. */
  ghost predicate ChangedBy(states: seq<State>, moves: seq<Move>, t: nat, op: Op, n: nat, a: nat, b: nat)
    requires b < |states| == |moves| + 1
  {
    exists j :: a <= j < b && moves[j].thread == t && Changes(op, states[j].shared.nodes, states[j + 1].shared.nodes, n)
  }

  // ----- one step of the call

  predicate IsOp(op: Op, now: Op) {
    now == op || (op.Remove? && now.Unfinished?)
  }

  predicate IsAnswer(op: Op, answer: Answer) {
    if op.Add? then answer.Got? else answer.Removed? || answer == NotRemoved
  }

  /** The places such a call can be at. */
  predicate AtCall(op: Op, data: int, pc: Pc) {
    match pc
    case Idle(answer) => IsAnswer(op, answer)
    case Begin(now, d, _) => IsOp(op, now) && d == data
    case Search(now, d, _, _, _, _, _, _, _) => IsOp(op, now) && d == data
    case Chosen(now, d, _, _, _, _) => IsOp(op, now) && d == data
    case Await(_) => op.Add?
    case Claim(d, _, _, _) => op.Remove? && d == data
    case Claimed(d, _, _, _) => op.Remove? && d == data
    case Lock(now, d, _, _, _, _) => IsOp(op, now) && d == data
    case Check(now, d, _, _, _, _) => IsOp(op, now) && d == data
    case LinkIn(d, _, _, _, _, _) => op.Add? && d == data
    case Unlink(d, _, _, _, _) => op.Remove? && d == data
    case Finish(answer) => IsAnswer(op, answer)
    case _ => false
  }

  function Victim(op: Op): Link {
    if op.Unfinished? then To(op.victim) else Nil
  }

  function Answered(answer: Answer): Link {
    match answer
    case Got(node, added) => if added then To(node) else Nil
    case Removed(node) => To(node)
    case _ => Nil
  }

  /** The node the call has changed by now, if it has. */
  function Changed(pc: Pc): Link {
    match pc
    case Idle(answer) => Answered(answer)
    case Begin(op, _, _) => Victim(op)
    case Search(op, _, _, _, _, _, _, _, _) => Victim(op)
    case Chosen(op, _, _, _, _, _) => Victim(op)
    case Lock(op, _, _, _, _, _) => Victim(op)
    case Check(op, _, _, _, _, _) => Victim(op)
    case Unlink(_, victim, _, _, _) => To(victim)
    case Finish(answer) => Answered(answer)
    case _ => Nil
  }

  lemma CallStep(s: State, t: nat, act: Action, s': State, op: Op, data: int)
    requires ThreadsOk(s) && Next(s, t, act, s') && t in s.threads && !op.Unfinished?
    requires !s.threads[t].pc.Idle? && AtCall(op, data, s.threads[t].pc)
    ensures t in s'.threads && AtCall(op, data, s'.threads[t].pc)
    ensures
      forall n: nat :: Changed(s'.threads[t].pc) == To(n) <==>
                       Changed(s.threads[t].pc) == To(n) || Changes(op, s.shared.nodes, s'.shared.nodes, n)
  {
    hide ThreadsOk, Changes;
    AtStep(s, t);
    if act.ToSetFull? || act.ToMarkVictim? {
      ChangingStep(s, t, act, s', op, data);
    } else {
      PcStep(s, t, act, s', op, data);
      QuietStep(s, t, act, s', op);
    }
  }

  lemma ChangingStep(s: State, t: nat, act: Action, s': State, op: Op, data: int)
    requires Next(s, t, act, s') && t in s.threads && !op.Unfinished? && (act.ToSetFull? || act.ToMarkVictim?)
    requires var pc := s.threads[t].pc; pc.LinkIn? ==> NewNode(s.shared.nodes, pc.node, pc.data, pc.k)
    requires AtCall(op, data, s.threads[t].pc)
    ensures t in s'.threads && AtCall(op, data, s'.threads[t].pc)
    ensures
      forall n: nat :: Changed(s'.threads[t].pc) == To(n) <==>
                       Changed(s.threads[t].pc) == To(n) || Changes(op, s.shared.nodes, s'.shared.nodes, n)
  {
  }

  lemma PcStep(s: State, t: nat, act: Action, s': State, op: Op, data: int)
    requires Next(s, t, act, s') && t in s.threads && !op.Unfinished? && !act.ToSetFull? && !act.ToMarkVictim?
    requires var pc := s.threads[t].pc; pc.Lock? || pc.Check? ==> !pc.op.Remove?
    requires !s.threads[t].pc.Idle? && AtCall(op, data, s.threads[t].pc)
    ensures t in s'.threads && AtCall(op, data, s'.threads[t].pc) && Changed(s'.threads[t].pc) == Changed(s.threads[t].pc)
  {
    hide PredValid, MaxLayer, Kept, OkToDelete, LinkedIn, UnlinkedFrom, FreeAll, SetSkip, NewHeadOrNode, Nils;
  }

  lemma QuietStep(s: State, t: nat, act: Action, s': State, op: Op)
    requires Next(s, t, act, s') && !act.ToSetFull? && !act.ToMarkVictim? && !act.ToGrowCopy? && !act.ToGrowMark?
    ensures forall n: nat :: !Changes(op, s.shared.nodes, s'.shared.nodes, n)
  {
    hide PredValid, MaxLayer, Kept, OkToDelete, InsertAfter, Without, Nils;
  }

  lemma AtStep(s: State, t: nat)
    requires ThreadsOk(s) && t in s.threads
    ensures
      var pc := s.threads[t].pc;
      && (pc.Lock? || pc.Check? ==> !pc.op.Remove?)
      && (pc.LinkIn? ==> NewNode(s.shared.nodes, pc.node, pc.data, pc.k))
  {
    hide ThreadsOk, Neighbours, SearchedFor, KeysFit, AllValidated, VictimOk, OpOk;
    Knows(s, t);
  }

  /** What t remembers only changes with its own steps. */
  lemma OthersLeave(s: State, t: nat, act: Action, s': State, u: nat)
    requires Next(s, t, act, s') && u in s.threads && u != t
    ensures u in s'.threads && s'.threads[u] == s.threads[u]
  {
    hide PredValid, MaxLayer, Kept, OkToDelete, InsertAfter, Without, Nils;
  }

  lemma NextChanged(states: seq<State>, moves: seq<Move>, t: nat, op: Op, n: nat, a: nat, j: nat)
    requires a <= j < |moves| && |states| == |moves| + 1
    ensures
      ChangedBy(states, moves, t, op, n, a, j + 1) <==>
      || ChangedBy(states, moves, t, op, n, a, j)
      || (moves[j].thread == t && Changes(op, states[j].shared.nodes, states[j + 1].shared.nodes, n))
  {
    hide Changes;
  }

  lemma StartStep(s: State, t: nat, s': State, op: Op, data: int)
    requires Next(s, t, ToStart(op, data), s')
    ensures !op.Unfinished? && t in s'.threads && s'.shared == s.shared
    ensures s.shared.head < |s.shared.nodes| && s'.threads[t].pc == Begin(op, data, MaxLayer(s.shared))
  {
    hide MaxLayer;
  }

  /** All along, the call knows exactly what it has changed. */
  lemma {:induction false} CallRuns(states: seq<State>, moves: seq<Move>, t: nat, op: Op, data: int, a: nat, b: nat, j: nat)
    requires IsCall(states, moves, t, op, data, a, b) && a < j <= b
    ensures !op.Unfinished? && t in states[j].threads && AtCall(op, data, states[j].threads[t].pc)
    ensures forall n: nat :: Changed(states[j].threads[t].pc) == To(n) <==> ChangedBy(states, moves, t, op, n, a, j)
  {
    hide Next, Init, Inv, Changes, AtCall, Changed, ChangedBy;
    StartStep(states[a], t, states[a + 1], op, data);
    if j == a + 1 {
      StartsAtCall(op, data, states[j].threads[t].pc);
      forall n: nat
        ensures !ChangedBy(states, moves, t, op, n, a, j)
      {
        StartsUnchanged(states, moves, t, op, n, a);
      }
    } else {
      var i := j - 1;
      CallRuns(states, moves, t, op, data, a, b, i);
      RunKeeps(states, moves, i);
      AllKnow(states[i]);
      var u := moves[i].thread;
      if u == t {
        CallStep(states[i], t, moves[i].action, states[j], op, data);
      } else {
        OthersLeave(states[i], u, moves[i].action, states[j], t);
      }
      forall n: nat
        ensures Changed(states[j].threads[t].pc) == To(n) <==> ChangedBy(states, moves, t, op, n, a, j)
      {
        NextChanged(states, moves, t, op, n, a, i);
      }
    }
  }

  lemma StartsAtCall(op: Op, data: int, pc: Pc)
    requires pc.Begin? && pc.op == op && pc.data == data && !op.Unfinished?
    ensures AtCall(op, data, pc) && Changed(pc) == Nil
  {
  }

  lemma AllKnow(s: State)
    requires Inv(s)
    ensures ThreadsOk(s)
  {
  }

  lemma StartsUnchanged(states: seq<State>, moves: seq<Move>, t: nat, op: Op, n: nat, a: nat)
    requires a < |moves| && |states| == |moves| + 1 && states[a + 1].shared == states[a].shared
    ensures !ChangedBy(states, moves, t, op, n, a, a + 1)
  {
    NextChanged(states, moves, t, op, n, a, a);
  }

  /**
   An add answers "new" with a node exactly if its own thread made that node fully linked; a remove answers "true", for a
   node, exactly if its own thread marked it.
   */
  lemma AnswersForIt(states: seq<State>, moves: seq<Move>, t: nat, op: Op, data: int, a: nat, b: nat, n: nat)
    requires IsCall(states, moves, t, op, data, a, b)
    ensures states[b].threads[t].pc.Idle? && IsAnswer(op, states[b].threads[t].pc.last)
    ensures
      ChangedBy(states, moves, t, op, n, a, b) <==>
      states[b].threads[t].pc.last == if op.Add? then Got(n, true) else Removed(n)
  {
    hide IsRun, ChangedBy;
    CallRuns(states, moves, t, op, data, a, b, b);
  }

  // ----- the node an add answers with

  ghost predicate SureSometime(states: seq<State>, n: nat, data: int, a: nat, j: nat)
    requires j < |states|
  {
    exists i :: a <= i <= j && Sure(states[i].shared.nodes, n, data)
  }

  /** The node the call waits for or answers with. */
  function Subject(pc: Pc): Link {
    match pc
    case Idle(answer) => if answer.Got? then To(answer.node) else Nil
    case Await(node) => To(node)
    case Finish(answer) => if answer.Got? then To(answer.node) else Nil
    case _ => Nil
  }

  /** A node that holds data and either was in the list at some time of the call or may still get there. */
  ghost predicate SubjectOk(nodes: seq<Node>, data: int, pc: Pc, sometime: bool) {
    Subject(pc).To? ==>
      var n := Subject(pc).id;
      n < |nodes| && !nodes[n].isHead && nodes[n].key == data && (sometime || (pc.Await? && !nodes[n].marked))
  }

  lemma SubjectStep(s: State, t: nat, act: Action, s': State, data: int, sometime: bool)
    requires Inv(s) && Next(s, t, act, s') && t in s.threads && t in s'.threads
    requires AtCall(Add, data, s.threads[t].pc) && SubjectOk(s.shared.nodes, data, s.threads[t].pc, sometime)
    requires !s.threads[t].pc.Idle?
    ensures
      var pc, nodes := s'.threads[t].pc, s'.shared.nodes;
      Subject(pc).To? ==>
        SubjectOk(nodes, data, pc, || (sometime && Subject(pc) == Subject(s.threads[t].pc))
                                   || Sure(s.shared.nodes, Subject(pc).id, data) || Sure(nodes, Subject(pc).id, data))
  {
    hide ThreadsOk, NodesOk, LayersOk, NoneLost, LocksOk, FreshApart, HeadsOk;
    if act.ToAddFound? {
      hide Next;
      FoundHolds(s, t, s', data);
    } else if act.ToAddReturn? || act.ToSetFull? || act.ToRelease? {
      AtStep(s, t);
    } else {
      hide Next;
      NoSubjectYet(s, t, act, s', data);
    }
  }

  lemma NoSubjectYet(s: State, t: nat, act: Action, s': State, data: int)
    requires Next(s, t, act, s') && t in s.threads && t in s'.threads && AtCall(Add, data, s.threads[t].pc)
    requires !act.ToAddFound? && !act.ToAddReturn? && !act.ToSetFull? && !act.ToRelease?
    ensures Subject(s'.threads[t].pc) == Nil
  {
    hide PredValid, MaxLayer, Kept, OkToDelete, LinkedIn, UnlinkedFrom, FreeAll, SetSkip, NewHeadOrNode, Nils;
  }

  lemma FoundHolds(s: State, t: nat, s': State, data: int)
    requires ThreadsOk(s) && AddFound(s, t, s') && s.threads[t].pc.data == data
    ensures t in s'.threads && SubjectOk(s'.shared.nodes, data, s'.threads[t].pc, false)
  {
    hide ThreadsOk, OpOk;
    Knows(s, t);
    var pc := s.threads[t].pc;
    assert RightOf(s.shared.nodes, pc.succs[pc.foundLayer], pc.foundLayer, pc.data, true);
  }

  /** No step marks a node and makes it full. */
  lemma OneFlag(s: State, t: nat, act: Action, s': State, n: nat)
    requires Next(s, t, act, s') && n < |s.shared.nodes| && n < |s'.shared.nodes|
    requires !s.shared.nodes[n].marked && s'.shared.nodes[n].marked
    ensures s'.shared.nodes[n].full == s.shared.nodes[n].full && s'.shared.nodes[n].key == s.shared.nodes[n].key
    ensures s'.shared.nodes[n].isHead == s.shared.nodes[n].isHead
  {
    hide PredValid, MaxLayer, Kept, OkToDelete, InsertAfter, Without, Nils;
  }

  /** A node is in the list until it is marked. */
  lemma MarkedWasSure(s: State, t: nat, act: Action, s': State, n: nat, data: int)
    requires Inv(s) && Next(s, t, act, s') && n < |s.shared.nodes| && n < |s'.shared.nodes|
    requires !s.shared.nodes[n].marked && s'.shared.nodes[n].marked && !s'.shared.nodes[n].isHead && s'.shared.nodes[n].key == data
    ensures Sure(s.shared.nodes, n, data)
  {
    hide Inv, Next;
    NextKeeps(s, t, act, s');
    OneFlag(s, t, act, s', n);
    FullIfMarked(s', n);
  }

  lemma FullIfMarked(s: State, n: nat)
    requires Inv(s) && n < |s.shared.nodes| && s.shared.nodes[n].marked && !s.shared.nodes[n].isHead
    ensures s.shared.nodes[n].full
  {
    assert NodeOk(s.shared.nodes, n);
  }

  lemma SometimeOn(states: seq<State>, n: nat, data: int, a: nat, i: nat, j: nat)
    requires a <= i <= j < |states| && SureSometime(states, n, data, a, i)
    ensures SureSometime(states, n, data, a, j)
  {
  }

  lemma SureNow(states: seq<State>, n: nat, data: int, a: nat, i: nat, j: nat)
    requires a <= i <= j < |states| && Sure(states[i].shared.nodes, n, data)
    ensures SureSometime(states, n, data, a, j)
  {
  }

  /** What others do meanwhile. */
  lemma SubjectStays(states: seq<State>, moves: seq<Move>, t: nat, data: int, a: nat, i: nat, pc: Pc)
    requires IsRun(states, moves) && a <= i < |moves|
    requires Subject(pc).To? && SubjectOk(states[i].shared.nodes, data, pc, SureSometime(states, Subject(pc).id, data, a, i))
    ensures SubjectOk(states[i + 1].shared.nodes, data, pc, SureSometime(states, Subject(pc).id, data, a, i + 1))
  {
    hide Inv, Next, Init, SureSometime;
    var s, s' := states[i], states[i + 1];
    var n := Subject(pc).id;
    RunKeeps(states, moves, i);
    NextGrows(s, moves[i].thread, moves[i].action, s');
    assert SameNode(s.shared.nodes[n], s'.shared.nodes[n]);
    if SureSometime(states, n, data, a, i) {
      SometimeOn(states, n, data, a, i, i + 1);
    } else if s'.shared.nodes[n].marked {
      MarkedWasSure(s, moves[i].thread, moves[i].action, s', n, data);
      SureNow(states, n, data, a, i, i + 1);
    }
  }

  lemma {:induction false} SubjectRuns(states: seq<State>, moves: seq<Move>, t: nat, data: int, a: nat, b: nat, j: nat)
    requires IsCall(states, moves, t, Add, data, a, b) && a < j <= b
    ensures t in states[j].threads
    ensures
      var pc := states[j].threads[t].pc;
      Subject(pc).To? ==> SubjectOk(states[j].shared.nodes, data, pc, SureSometime(states, Subject(pc).id, data, a, j))
  {
    hide Next, Init, Inv, AtCall, SureSometime, SubjectOk, Sure;
    CallRuns(states, moves, t, Add, data, a, b, j);
    StartStep(states[a], t, states[a + 1], Add, data);
    if j > a + 1 {
      var i := j - 1;
      SubjectRuns(states, moves, t, data, a, b, i);
      CallRuns(states, moves, t, Add, data, a, b, i);
      RunKeeps(states, moves, i);
      var s, s', pc, pc' := states[i], states[j], states[i].threads[t].pc, states[j].threads[t].pc;
      var u := moves[i].thread;
      if u == t {
        if Subject(pc').To? {
          var n := Subject(pc').id;
          var sometime := Subject(pc).To? && SureSometime(states, Subject(pc).id, data, a, i);
          if !Subject(pc).To? { NoSubject(s.shared.nodes, data, pc, sometime); }
          SubjectStep(s, t, moves[i].action, s', data, sometime);
          if sometime && Subject(pc) == Subject(pc') { SometimeOn(states, n, data, a, i, j); }
          if Sure(s.shared.nodes, n, data) { SureNow(states, n, data, a, i, j); }
          if Sure(s'.shared.nodes, n, data) { SureNow(states, n, data, a, j, j); }
          SubjectMore(s'.shared.nodes, data, pc', || (sometime && Subject(pc') == Subject(pc)) || Sure(s.shared.nodes, n, data)
                                                  || Sure(s'.shared.nodes, n, data),
                      SureSometime(states, n, data, a, j));
        }
      } else {
        OthersLeave(s, u, moves[i].action, s', t);
        if Subject(pc).To? { SubjectStays(states, moves, t, data, a, i, pc); }
      }
    }
  }

  lemma SubjectMore(nodes: seq<Node>, data: int, pc: Pc, now: bool, sometime: bool)
    requires SubjectOk(nodes, data, pc, now) && (now ==> sometime)
    ensures SubjectOk(nodes, data, pc, sometime)
  {
  }

  lemma NoSubject(nodes: seq<Node>, data: int, pc: Pc, sometime: bool)
    requires !Subject(pc).To?
    ensures SubjectOk(nodes, data, pc, sometime)
  {
  }

  // ----- where a remove is while the node it should find is still in the list

  predicate RemoverOk(nodes: seq<Node>, g: set<Spot>, n: nat, data: int, pc: Pc) {
    && n < |nodes|
    && var height := |nodes[n].skip|;
       match pc
       case Begin(op, _, top) => op.Remove? && height <= top + 1
       case Search(op, _, _, layer, pred, foundLayer, foundNode, _, succs) =>
         && op.Remove? && Spot(layer, pred) in g && pred < |nodes| && IsLeft(nodes[pred], data)
         && (if foundLayer == -1 then height <= layer + 1
             else layer < foundLayer == height - 1 < |succs| && foundNode == n && succs[foundLayer] == To(n))
       case Chosen(op, _, _, foundLayer, _, succs) =>
         op.Remove? && 0 <= foundLayer == height - 1 < |succs| && succs[foundLayer] == To(n)
       case Claim(_, victim, _, _) => victim == n
       case Claimed(_, victim, _, _) => victim == n
       case _ => false
  }

  lemma RemoverStays(nodes: seq<Node>, nodes': seq<Node>, g: set<Spot>, g': set<Spot>, n: nat, data: int, pc: Pc)
    requires Grown(nodes, nodes') && g <= g' && RemoverOk(nodes, g, n, data, pc)
    ensures RemoverOk(nodes', g', n, data, pc)
  {
    assert SameNode(nodes[n], nodes'[n]);
    if pc.Search? { assert SameNode(nodes[pc.pred], nodes'[pc.pred]); }
  }

  lemma RemoverEnters(s: State, t: nat, s': State, g: set<Spot>, n: nat, data: int)
    requires Inv(s) && SkipListSteps.Enter(s, t, s') && AllOk(s.shared, g, n, data)
    requires RemoverOk(s.shared.nodes, g, n, data, s.threads[t].pc)
    ensures t in s'.threads && RemoverOk(s.shared.nodes, g, n, data, s'.threads[t].pc)
  {
    hide NodesOk, LayersOk, NoneLost, LocksOk, FreshApart, HeadsOk, ThreadsOk, SpotOk, Spots;
    Knows(s, t);
    HeadIsHead(s.shared);
    InSpots(s.shared, s.threads[t].pc.top, s.shared.head);
  }

  lemma RemoverScans(s: State, t: nat, s': State, g: set<Spot>, n: nat, data: int)
    requires Inv(s) && Scan(s, t, s') && AllOk(s.shared, g, n, data) && Sure(s.shared.nodes, n, data)
    requires AtCall(Remove, data, s.threads[t].pc) && RemoverOk(s.shared.nodes, g, n, data, s.threads[t].pc)
    ensures t in s'.threads && RemoverOk(s.shared.nodes, g, n, data, s'.threads[t].pc)
  {
    hide NodesOk, LayersOk, NoneLost, LocksOk, FreshApart, HeadsOk, ThreadsOk, AllOk;
    var pc, nodes := s.threads[t].pc, s.shared.nodes;
    Tall(nodes, n);
    LinkRead(s.shared, g, n, data, pc.layer, pc.pred);
    var node := nodes[pc.pred].skip[pc.layer];
    if node.To? {
      LinkRead(s.shared, g, n, data, pc.layer, node.id);
      SpotHeight(s.shared, g, n, data, pc.layer, node.id);
    }
  }

  lemma SpotHeight(sh: Shared, g: set<Spot>, n: nat, data: int, l: nat, m: nat)
    requires AllOk(sh, g, n, data) && Spot(l, m) in g
    ensures m < |sh.nodes| && l < |sh.nodes[m].skip|
  {
    assert SpotOk(sh.nodes, g, n, data, Spot(l, m));
  }

  lemma RemoverStep(s: State, t: nat, act: Action, s': State, g: set<Spot>, n: nat, data: int)
    requires Inv(s) && Next(s, t, act, s') && AllOk(s.shared, g, n, data) && Sure(s.shared.nodes, n, data)
    requires t in s.threads && !s.threads[t].pc.Idle?
    requires AtCall(Remove, data, s.threads[t].pc) && RemoverOk(s.shared.nodes, g, n, data, s.threads[t].pc)
    requires n < |s'.shared.nodes| && !s'.shared.nodes[n].marked
    ensures t in s'.threads && RemoverOk(s.shared.nodes, g, n, data, s'.threads[t].pc)
  {
    hide Inv, AllOk, Scan, SkipListSteps.Enter;
    match act
    case ToEnter => RemoverEnters(s, t, s', g, n, data);
    case ToScan => RemoverScans(s, t, s', g, n, data);
    case _ =>
  }

  lemma RemoverStarts(s: State, t: nat, s': State, g: set<Spot>, n: nat, data: int)
    requires Inv(s) && Next(s, t, ToStart(Remove, data), s') && Sure(s.shared.nodes, n, data)
    ensures t in s'.threads && RemoverOk(s.shared.nodes, g, n, data, s'.threads[t].pc)
  {
    hide NodesOk, LayersOk, NoneLost, LocksOk, FreshApart, HeadsOk, ThreadsOk;
    HeightInList(s.shared, n, data);
    HeadIsHead(s.shared);
  }

  /** Until somebody marks the node, the remove is on its way to it. */
  lemma {:induction false} RemoverRuns(states: seq<State>, moves: seq<Move>, t: nat, data: int, a: nat, b: nat, n: nat, j: nat)
    requires IsCall(states, moves, t, Remove, data, a, b) && a < j <= b && Sure(states[a].shared.nodes, n, data)
    requires n < |states[j].shared.nodes| && !states[j].shared.nodes[n].marked
    ensures t in states[j].threads
    ensures RemoverOk(states[j].shared.nodes, Met(states, a, j), n, data, states[j].threads[t].pc)
  {
    hide Next, Init, Inv, AtCall, Sure, RemoverOk, AllOk, Grown, Met;
    var i := j - 1;
    var s, s' := states[i], states[j];
    var g := Met(states, a, i);
    RunGrows(states, moves, a, i);
    RunGrows(states, moves, i, j);
    StillUnmarked(states[a].shared.nodes, n, data);
    GrownLength(states[a].shared.nodes, s.shared.nodes);
    UnmarkedBefore(s.shared.nodes, s'.shared.nodes, n);
    SureLater(states[a].shared.nodes, s.shared.nodes, n, data);
    RunKeeps(states, moves, i);
    if i == a {
      RemoverStarts(s, t, s', g, n, data);
    } else {
      RemoverRuns(states, moves, t, data, a, b, n, i);
      CallRuns(states, moves, t, Remove, data, a, b, i);
      RunOk(states, moves, a, i, n, data);
      var u := moves[i].thread;
      if u == t {
        RemoverStep(s, t, moves[i].action, s', g, n, data);
      } else {
        OthersLeave(s, u, moves[i].action, s', t);
      }
    }
    MetGrows(states, a, i, j);
    RemoverStays(s.shared.nodes, s'.shared.nodes, g, Met(states, a, j), n, data, s'.threads[t].pc);
  }

  // ----- calls that are over

  /** Whoever marks a node does so with one step. */
  lemma {:induction false} MarkedSometime(states: seq<State>, moves: seq<Move>, n: nat, a: nat, b: nat) returns (u: nat)
    requires IsRun(states, moves) && a < b < |states|
    requires n < |states[a].shared.nodes| && !states[a].shared.nodes[n].marked
    requires n < |states[b].shared.nodes| && states[b].shared.nodes[n].marked
    ensures ChangedBy(states, moves, u, Remove, n, a, b)
  {
    hide Next, Init;
    RunGrows(states, moves, a, b - 1);
    GrownLength(states[a].shared.nodes, states[b - 1].shared.nodes);
    if states[b - 1].shared.nodes[n].marked {
      u := MarkedSometime(states, moves, n, a, b - 1);
    } else {
      u := moves[b - 1].thread;
      assert Changes(Remove, states[b - 1].shared.nodes, states[b].shared.nodes, n);
    }
  }

  /**
   A remove that begins while its key is in the list ends with that node marked, whoever did it; it says that it removed
   the node exactly if it was its own thread.
   */
  lemma RemoveRemoves(states: seq<State>, moves: seq<Move>, t: nat, data: int, a: nat, b: nat, n: nat) returns (u: nat)
    requires IsCall(states, moves, t, Remove, data, a, b) && Sure(states[a].shared.nodes, n, data)
    ensures n < |states[b].shared.nodes| && states[b].shared.nodes[n].marked
    ensures ChangedBy(states, moves, u, Remove, n, a, b)
    ensures states[b].threads[t].pc.last == Removed(n) <==> u == t
  {
    hide IsRun, Grown, ChangedBy, Sure;
    RunGrows(states, moves, a, b);
    GrownLength(states[a].shared.nodes, states[b].shared.nodes);
    StillUnmarked(states[a].shared.nodes, n, data);
    if !states[b].shared.nodes[n].marked { RemoverRuns(states, moves, t, data, a, b, n, b); }
    AnswersForIt(states, moves, t, Remove, data, a, b, n);
    if states[b].threads[t].pc.last == Removed(n) {
      u := t;
    } else {
      u := MarkedSometime(states, moves, n, a, b);
    }
  }

  /** A removed node is in no layer any more. */
  lemma RemovedIsGone(states: seq<State>, moves: seq<Move>, t: nat, data: int, a: nat, b: nat, n: nat, l: nat, ids: seq<nat>)
    requires IsCall(states, moves, t, Remove, data, a, b) && states[b].threads[t].pc.last == Removed(n)
    requires IsChain(states[b].shared.nodes, states[b].shared.head, l, ids)
    ensures n !in ids
  {
    hide Init, Inv, Next, IsChain, IsSorted;
    LayersSorted(states, moves, b, l, ids);
    var i := b - 1;
    RunKeeps(states, moves, i);
    StartStep(states[a], t, states[a + 1], Remove, data);
    assert i > a;
    var u := moves[i].thread;
    if u != t { OthersLeave(states[i], u, moves[i].action, states[b], t); }
    AllKnow(states[i]);
    EndsGone(states[i], t, moves[i].action, states[b], n);
    assert InLayer(states[b].shared.layers, l, n) <==> n in ids;
  }

  lemma EndsGone(s: State, t: nat, act: Action, s': State, n: nat)
    requires ThreadsOk(s) && Next(s, t, act, s') && t in s.threads && t in s'.threads
    requires !s.threads[t].pc.Idle? && s'.threads[t].pc == Idle(Removed(n))
    ensures forall l: nat :: !InLayer(s'.shared.layers, l, n)
  {
    hide ThreadsOk, InLayer, PredValid, MaxLayer, Kept, OkToDelete, LinkedIn, UnlinkedFrom, FreeAll, SetSkip, NewHeadOrNode, Nils;
    assert s.threads[t].pc == Finish(Removed(n)) && s'.shared.layers == s.shared.layers;
    GoneByNow(s, t, n);
  }

  lemma GoneByNow(s: State, t: nat, n: nat)
    requires ThreadsOk(s) && t in s.threads && s.threads[t].pc == Finish(Removed(n))
    ensures forall l: nat :: !InLayer(s.shared.layers, l, n)
  {
    hide ThreadsOk, InLayer;
    Knows(s, t);
  }

  /** The one moment of a call at which its answer is true. */
  ghost predicate IsMoment(states: seq<State>, moves: seq<Move>, t: nat, data: int, answer: Answer, j: nat)
    requires j < |states| == |moves| + 1
  {
    var nodes := states[j].shared.nodes;
    match answer
    case Got(n, added) =>
      if added then
        && j < |moves| && moves[j].thread == t && NobodySure(nodes, data)
        && Sure(states[j + 1].shared.nodes, n, data)
      else Sure(nodes, n, data)
    case Removed(n) =>
      && j < |moves| && moves[j].thread == t && Sure(nodes, n, data)
      && NobodySure(states[j + 1].shared.nodes, data)
    case NotRemoved => NobodySure(nodes, data)
    case None => false
  }

  lemma FillMoment(s: State, t: nat, act: Action, s': State, n: nat, data: int)
    requires ThreadsOk(s) && Next(s, t, act, s') && t in s.threads && AtCall(Add, data, s.threads[t].pc)
    requires Changes(Add, s.shared.nodes, s'.shared.nodes, n)
    ensures Sure(s'.shared.nodes, n, data)
    ensures forall m: nat :: Sure(s.shared.nodes, m, data) ==> m != n && Sure(s'.shared.nodes, m, data)
  {
    hide ThreadsOk, PredValid, MaxLayer, Kept, OkToDelete, InsertAfter, Without, Nils;
    AtStep(s, t);
  }

  lemma MarkMoment(s: State, t: nat, act: Action, s': State, n: nat, data: int)
    requires ThreadsOk(s) && Next(s, t, act, s') && t in s.threads && AtCall(Remove, data, s.threads[t].pc)
    requires Changes(Remove, s.shared.nodes, s'.shared.nodes, n)
    ensures Sure(s.shared.nodes, n, data)
    ensures forall m: nat :: Sure(s'.shared.nodes, m, data) ==> m != n && Sure(s.shared.nodes, m, data)
  {
    hide ThreadsOk, PredValid, MaxLayer, Kept, OkToDelete, InsertAfter, Without, Nils, SearchedFor;
    Knows(s, t);
  }

  lemma AddedMoment(states: seq<State>, moves: seq<Move>, t: nat, data: int, a: nat, b: nat, n: nat) returns (j: nat)
    requires IsCall(states, moves, t, Add, data, a, b) && ChangedBy(states, moves, t, Add, n, a, b)
    ensures a <= j < b && IsMoment(states, moves, t, data, Got(n, true), j)
  {
    hide Next, Init, Inv, AtCall, Changes, Sure;
    j :| a <= j < b && moves[j].thread == t && Changes(Add, states[j].shared.nodes, states[j + 1].shared.nodes, n);
    StartStep(states[a], t, states[a + 1], Add, data);
    if j == a {
      NothingChanges(Add, states[a].shared.nodes, n);
    } else {
      CallRuns(states, moves, t, Add, data, a, b, j);
      RunKeeps(states, moves, j);
      AllKnow(states[j]);
      FillMoment(states[j], t, moves[j].action, states[j + 1], n, data);
      forall m: nat
        ensures !Sure(states[j].shared.nodes, m, data)
      {
        if Sure(states[j].shared.nodes, m, data) { OneSure(states, moves, j + 1, m, n, data); }
      }
    }
  }

  lemma RemovedMoment(states: seq<State>, moves: seq<Move>, t: nat, data: int, a: nat, b: nat, n: nat) returns (j: nat)
    requires IsCall(states, moves, t, Remove, data, a, b) && ChangedBy(states, moves, t, Remove, n, a, b)
    ensures a <= j < b && IsMoment(states, moves, t, data, Removed(n), j)
  {
    hide Next, Init, Inv, AtCall, Changes, Sure;
    j :| a <= j < b && moves[j].thread == t && Changes(Remove, states[j].shared.nodes, states[j + 1].shared.nodes, n);
    StartStep(states[a], t, states[a + 1], Remove, data);
    if j == a {
      NothingChanges(Remove, states[a].shared.nodes, n);
    } else {
      CallRuns(states, moves, t, Remove, data, a, b, j);
      RunKeeps(states, moves, j);
      AllKnow(states[j]);
      MarkMoment(states[j], t, moves[j].action, states[j + 1], n, data);
      var after := states[j + 1].shared.nodes;
      forall m: nat
        ensures !Sure(after, m, data)
      {
        if Sure(after, m, data) { OneSure(states, moves, j, m, n, data); }
      }
    }
  }

  lemma NothingChanges(op: Op, nodes: seq<Node>, n: nat)
    ensures !Changes(op, nodes, nodes, n)
  {
  }

  lemma OneSure(states: seq<State>, moves: seq<Move>, j: nat, m: nat, n: nat, data: int)
    requires IsRun(states, moves) && j < |states| && Sure(states[j].shared.nodes, m, data) && Sure(states[j].shared.nodes, n, data)
    ensures m == n
  {
    KeysUnique(states, moves, j, m, n);
  }

  /**
   Every add and every remove overlaps a moment at which its answer is true: "new" is said of the one step, by its own
   thread, before which nobody held the key and after which the node answered with does; "not new" of a state in which
   that node was in the list; "removed" of the one step, by its own thread, that took the key's only node out; "not
   removed" of a state in which nobody held the key.
   */
  lemma AnswerIsRight(states: seq<State>, moves: seq<Move>, t: nat, op: Op, data: int, a: nat, b: nat) returns (j: nat)
    requires IsCall(states, moves, t, op, data, a, b)
    ensures a <= j <= b && IsMoment(states, moves, t, data, states[b].threads[t].pc.last, j)
    ensures IsAnswer(op, states[b].threads[t].pc.last)
  {
    hide IsRun, ChangedBy, Sure, AtCall;
    var answer := states[b].threads[t].pc.last;
    CallRuns(states, moves, t, op, data, a, b, b);
    AnswersForIt(states, moves, t, op, data, a, b, match answer case Got(n, _) => n case Removed(n) => n case _ => 0);
    match answer
    case Got(n, added) =>
      if added {
        j := AddedMoment(states, moves, t, data, a, b, n);
      } else {
        SubjectRuns(states, moves, t, data, a, b, b);
        j :| a <= j <= b && Sure(states[j].shared.nodes, n, data);
      }
    case Removed(n) => j := RemovedMoment(states, moves, t, data, a, b, n);
    case NotRemoved =>
      j := a;
      if !NobodySure(states[a].shared.nodes, data) {
        var n: nat :| Sure(states[a].shared.nodes, n, data);
        var _ := RemoveRemoves(states, moves, t, data, a, b, n);
        j := GoneSometime(states, moves, a, b, n, data);
      }
    case None => assert false;
  }
}
