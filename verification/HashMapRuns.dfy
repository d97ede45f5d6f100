/** What the invariant says in every state of every run. */
module HashMapRuns {
  import opened HashMapState
  import opened HashMapProofs

  datatype Move = Move(thread: nat, action: Action)

  ghost predicate IsRun(states: seq<State>, moves: seq<Move>) {
    && |states| == |moves| + 1 && Init(states[0])
    && forall i | 0 <= i < |moves| :: Next(states[i], moves[i].thread, moves[i].action, states[i + 1])
  }

  lemma {:induction false} RunKeeps(states: seq<State>, moves: seq<Move>, i: nat)
    requires IsRun(states, moves) && i < |states|
    ensures Inv(states[i])
  {
    hide Inv, Next, Init;
    if i == 0 {
      InitHolds(states[0]);
    } else {
      RunKeeps(states, moves, i - 1);
      NextKeeps(states[i - 1], moves[i - 1].thread, moves[i - 1].action, states[i]);
    }
  }

  /** A key is live in at most one cell of at most one array. */
  lemma KeyLiveOnce(states: seq<State>, moves: seq<Move>, n: nat, k: int, i: nat, c: nat, j: nat, d: nat)
    requires IsRun(states, moves) && n < |states| && HasMap(states[n], i) && HasMap(states[n], j)
    requires c < |states[n].slots[i].sub.cells| && d < |states[n].slots[j].sub.cells|
    requires states[n].slots[i].sub.cells[c] == Holds(k) && states[n].slots[j].sub.cells[d] == Holds(k)
    ensures i == j && c == d
  {
    RunKeeps(states, moves, n);
    LiveOnce(states[n], k, i, c, j, d);
  }

  lemma EvolveOn(s: State, s': State, s'': State)
    requires AllEvolve(s, s') && AllEvolve(s', s'')
    ensures AllEvolve(s, s'')
  {
  }

  lemma {:induction false} RunEvolves(states: seq<State>, moves: seq<Move>, i: nat, j: nat)
    requires IsRun(states, moves) && i <= j < |states|
    ensures AllEvolve(states[i], states[j])
  {
    hide Inv, Next, Init, AllEvolve;
    if i == j {
      SameEvolves(states[i]);
    } else {
      RunEvolves(states, moves, i, j - 1);
      RunKeeps(states, moves, j - 1);
      NextKeeps(states[j - 1], moves[j - 1].thread, moves[j - 1].action, states[j]);
      EvolveOn(states[i], states[j - 1], states[j]);
    }
  }

  lemma SameEvolves(s: State)
    ensures AllEvolve(s, s)
  {
  }

  /** An insert is about to report an array full because the array was still empty at its cell after the wait. */
  predicate FindsFull(s: State, t: nat) {
    t in s.threads && s.threads[t].Recheck? && JobFits(s, s.threads[t].job) && CellOf(s, s.threads[t].job) == Empty
  }

  /** Once one insert has found an array full that way, no later step adds a key to it. */
  lemma FullIsFinal(states: seq<State>, moves: seq<Move>, i: nat, j: nat, t: nat, c: nat)
    requires IsRun(states, moves) && i <= j < |states| && FindsFull(states[i], t)
    requires c < |states[i].slots[states[i].threads[t].job.sub].sub.cells|
    ensures
      var sub := states[i].threads[t].job.sub;
      && HasMap(states[j], sub) && c < |states[j].slots[sub].sub.cells|
      && (states[j].slots[sub].sub.cells[c].Holds? ==>
            states[j].slots[sub].sub.cells[c] == states[i].slots[sub].sub.cells[c])
  {
    RunKeeps(states, moves, i);
    RunEvolves(states, moves, i, j);
    assert ThreadOk(states[i], states[i].threads[t]);
    var sub := states[i].threads[t].job.sub;
    assert HasMap(states[i], sub);
    assert CellGrows(states[i].slots[sub].sub.cells[c], states[j].slots[sub].sub.cells[c], states[i].slots[sub].sub.shut);
  }

  /** A lookup that goes through the probe sequence of a live key meets the key before any empty cell. */
  lemma LookupFinds(states: seq<State>, moves: seq<Move>, n: nat, i: nat, c: nat, k: int)
    requires IsRun(states, moves) && n < |states| && HasMap(states[n], i)
    requires c < |states[n].slots[i].sub.cells| && states[n].slots[i].sub.cells[c] == Holds(k)
    ensures
      var cells := states[n].slots[i].sub.cells;
      exists p: nat :: p < |cells| && ProbeAt(states[n].setup, k, p, |cells|) == c && Clear(states[n].setup, cells, k, p)
  {
    RunKeeps(states, moves, n);
    assert KeysOk(states[n], i);
    assert Reached(states[n].setup, states[n].slots[i].sub.cells, k, c);
  }

  /** An insert that moves on to another array leaves one behind that will not hold its key in any later state. */
  lemma MovedOnForGood(states: seq<State>, moves: seq<Move>, i: nat, j: nat, t: nat, sub: nat)
    requires IsRun(states, moves) && i <= j < |states| && t in states[i].threads && Inserting(states[i].threads[t])
    requires sub < states[i].threads[t].job.sub
    ensures HasMap(states[j], sub) && Absent(states[j].slots[sub].sub.cells, states[i].threads[t].job.key)
  {
    RunKeeps(states, moves, i);
    RunKeeps(states, moves, j);
    RunEvolves(states, moves, i, j);
    assert ThreadOk(states[i], states[i].threads[t]);
    var k := states[i].threads[t].job.key;
    assert HasMap(states[i], sub);
    BarredStays(states[i].setup, states[i].slots[sub].sub, states[j].slots[sub].sub, k);
    assert KeysOk(states[j], sub);
    forall c: nat | c < |states[j].slots[sub].sub.cells|
      ensures states[j].slots[sub].sub.cells[c] != Holds(k)
    {
      if states[j].slots[sub].sub.cells[c] == Holds(k) { NotBarred(states[j], sub, c, k); }
    }
  }

  /** A pending insert is counted as such, and nobody adds to an array that is shut. */
  lemma PendingExact(states: seq<State>, moves: seq<Move>, n: nat, i: nat)
    requires IsRun(states, moves) && n < |states| && HasMap(states[n], i)
    ensures states[n].slots[i].sub.pending == |Pending(states[n].threads, i)|
  {
    RunKeeps(states, moves, n);
  }
}
