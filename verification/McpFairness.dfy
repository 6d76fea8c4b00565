/**
Progress in infinite runs. Threads may be held up for as long as the scheduler likes, but
none for ever while it could do something other than wait; then every call returns, and a
stopped server comes to rest.
*/
module McpFairness {
  import opened McpState
  import opened McpInvariant
  import opened McpSafety
  import opened McpProgress

  /** What happens at one moment of an infinite run. */
  datatype Move = Nothing | Moves(e: Event)

  ghost predicate Turn(states: nat -> State, moves: nat -> Move, n: nat) {
    && Shape(states(n))
    && match moves(n)
       case Nothing => states(n + 1) == states(n)
       case Moves(e) => Enabled(states(n), e) && states(n + 1) == Step(states(n), e)
  }

  ghost predicate IsRun(states: nat -> State, moves: nat -> Move) {
    Inv(states(0)) && forall n: nat :: Turn(states, moves, n)
  }

  /** Something other than waiting happens. */
  ghost predicate Works(states: nat -> State, moves: nat -> Move, n: nat) {
    Turn(states, moves, n) && moves(n).Moves? && !Idle(states(n), moves(n).e)
  }

  /** The thread could do something other than wait. */
  ghost predicate CanWork(s: State, th: Thread) {
    Shape(s) && exists e :: Enabled(s, e) && ThreadOf(e) == th && !Idle(s, e)
  }

  ghost predicate CanAlwaysWork(states: nat -> State, th: Thread, n: nat) {
    forall m: nat :: n <= m ==> CanWork(states(m), th)
  }

  predicate MovesAt(moves: nat -> Move, th: Thread, n: nat) {
    moves(n).Moves? && ThreadOf(moves(n).e) == th
  }

  ghost predicate MovesAgain(moves: nat -> Move, th: Thread, n: nat) {
    exists m: nat :: n <= m && MovesAt(moves, th, m)
  }

  /** A thread that can work from some moment on makes a step at some later moment. */
  ghost predicate Fair(states: nat -> State, moves: nat -> Move) {
    forall th: Thread, n: nat :: CanAlwaysWork(states, th, n) ==> MovesAgain(moves, th, n)
  }

  lemma {:induction false} InvAt(states: nat -> State, moves: nat -> Move, n: nat)
    requires IsRun(states, moves)
    ensures Inv(states(n)) && |states(n).clients| == |states(0).clients|
    decreases n
  {
    if n == 0 {
    } else {
      InvAt(states, moves, n - 1);
      assert Turn(states, moves, n - 1);
      if moves(n - 1).Moves? { StepInv(states(n - 1), moves(n - 1).e); }
    }
  }

  lemma TurnMeasure(states: nat -> State, moves: nat -> Move, n: nat)
    requires IsRun(states, moves)
    ensures Shape(states(n)) && Shape(states(n + 1)) && Measure(states(n + 1)) <= Measure(states(n))
    ensures Works(states, moves, n) ==> Measure(states(n + 1)) < Measure(states(n))
  {
    InvAt(states, moves, n);
    InvAt(states, moves, n + 1);
    assert Turn(states, moves, n);
    if moves(n).Moves? { StepMeasure(states(n), moves(n).e); }
  }

  lemma {:induction false} MeasureLater(states: nat -> State, moves: nat -> Move, n: nat, m: nat)
    requires IsRun(states, moves) && n <= m
    ensures Shape(states(n)) && Shape(states(m)) && Measure(states(m)) <= Measure(states(n))
    decreases m
  {
    if n == m {
      InvAt(states, moves, n);
    } else {
      MeasureLater(states, moves, n, m - 1);
      TurnMeasure(states, moves, m - 1);
    }
  }

  lemma WorkCounts(states: nat -> State, moves: nat -> Move, n: nat, k: nat)
    requires IsRun(states, moves) && n <= k && Works(states, moves, k)
    ensures Shape(states(n)) && Shape(states(k + 1)) && Measure(states(k + 1)) < Measure(states(n))
  {
    MeasureLater(states, moves, n, k);
    TurnMeasure(states, moves, k);
  }

  // ------------------------------------------------------------ while nobody works

  predicate Polls(d: DrainerPc) {
    d.LoopHead? || d.InterruptCheck? || d.QueuePoll?
  }

  /** `t` differs from `s` at most in where the idle drainer is. */
  predicate Waits(s: State, t: State) {
    t == s.(drainer := t.drainer) && (t.drainer == s.drainer || (s.running && Polls(s.drainer) && Polls(t.drainer)))
  }

  lemma IdleWaits(s: State, e: Event)
    requires Shape(s) && Enabled(s, e) && Idle(s, e)
    ensures Waits(s, Step(s, e))
  {
  }

  lemma {:induction false} QuietWaits(states: nat -> State, moves: nat -> Move, n: nat, m: nat)
    requires IsRun(states, moves) && n <= m
    requires forall k: nat :: n <= k ==> !Works(states, moves, k)
    ensures Waits(states(n), states(m))
    decreases m
  {
    if n == m {
    } else {
      QuietWaits(states, moves, n, m - 1);
      assert Turn(states, moves, m - 1) && !Works(states, moves, m - 1);
      if moves(m - 1).Moves? { IdleWaits(states(m - 1), moves(m - 1).e); }
    }
  }

  /** A thread that could work all the time while nobody did would have been held up for ever. */
  lemma NotQuiet(states: nat -> State, moves: nat -> Move, n: nat, th: Thread)
    requires IsRun(states, moves) && Fair(states, moves)
    requires forall m: nat :: n <= m ==> CanWork(states(m), th) && NeverIdle(states(m), th)
    ensures exists m: nat :: n <= m && Works(states, moves, m)
  {
    assert CanAlwaysWork(states, th, n);
    assert MovesAgain(moves, th, n);
    var m: nat :| n <= m && MovesAt(moves, th, m);
    assert CanWork(states(m), th) && Turn(states, moves, m);
    assert Works(states, moves, m);
  }

  ghost predicate NeverIdle(s: State, th: Thread) {
    Shape(s) ==> forall e :: Enabled(s, e) && ThreadOf(e) == th ==> !Idle(s, e)
  }

  // ------------------------------------------------------------ every call returns

  lemma AwaitedCanWork(s: State, i: nat)
    requires Inv(s) && i < |s.clients| && !s.clients[i].Returned?
    ensures CanWork(s, Awaited(s, i)) && NeverIdle(s, Awaited(s, i))
  {
    assert CallOk(s, i);
    var e := NeverStuck(s, i);
  }

  lemma SomebodyWorks(states: nat -> State, moves: nat -> Move, n: nat, i: nat)
    requires IsRun(states, moves) && Fair(states, moves)
    requires i < |states(n).clients| && !states(n).clients[i].Returned?
    ensures exists m: nat :: n <= m && Works(states, moves, m)
  {
    if forall m: nat :: n <= m ==> !Works(states, moves, m) {
      InvAt(states, moves, n);
      var th := Awaited(states(n), i);
      forall m: nat | n <= m
        ensures CanWork(states(m), th) && NeverIdle(states(m), th)
      {
        QuietWaits(states, moves, n, m);
        InvAt(states, moves, m);
        AwaitedCanWork(states(m), i);
      }
      NotQuiet(states, moves, n, th);
    }
  }

  lemma {:induction false} ReturnsFrom(states: nat -> State, moves: nat -> Move, n: nat, i: nat) returns (m: nat)
    requires IsRun(states, moves) && Fair(states, moves)
    requires i < |states(0).clients| && Shape(states(n))
    ensures i < |states(m).clients| && states(m).clients[i].Returned?
    decreases Measure(states(n))
  {
    InvAt(states, moves, n);
    if states(n).clients[i].Returned? {
      m := n;
    } else {
      SomebodyWorks(states, moves, n, i);
      var k: nat :| n <= k && Works(states, moves, k);
      WorkCounts(states, moves, n, k);
      m := ReturnsFrom(states, moves, k + 1, i);
    }
  }

  lemma {:induction false} ReturnedStays(states: nat -> State, moves: nat -> Move, n: nat, i: nat, m: nat)
    requires IsRun(states, moves) && n <= m
    requires i < |states(n).clients| && states(n).clients[i].Returned?
    ensures i < |states(m).clients| && states(m).clients[i] == states(n).clients[i]
    decreases m
  {
    if n == m {
    } else {
      ReturnedStays(states, moves, n, i, m - 1);
      InvAt(states, moves, m - 1);
      assert Turn(states, moves, m - 1);
      if moves(m - 1).Moves? { StepLater(states(m - 1), moves(m - 1).e, i); }
    }
  }

  /** In a fair run every call returns, for good. */
  lemma EveryCallReturns(states: nat -> State, moves: nat -> Move, i: nat) returns (n: nat)
    requires IsRun(states, moves) && Fair(states, moves) && i < |states(0).clients|
    ensures i < |states(n).clients| && states(n).clients[i].Returned?
    ensures forall m: nat :: n <= m ==> i < |states(m).clients| && states(m).clients[i] == states(n).clients[i]
  {
    InvAt(states, moves, 0);
    n := ReturnsFrom(states, moves, 0, i);
    forall m: nat | n <= m
      ensures i < |states(m).clients| && states(m).clients[i] == states(n).clients[i]
    {
      ReturnedStays(states, moves, n, i, m);
    }
  }

  // ------------------------------------------------------------ a stopped server comes to rest

  ghost predicate AtRest(s: State) {
    && Shape(s) && AllReturned(s) && s.drainer.Exited?
    && forall k :: 1 <= k < |s.stops| ==> s.stops[k].Finished?
  }

  lemma StoppedStays(states: nat -> State, moves: nat -> Move, n: nat)
    requires IsRun(states, moves) && !states(n).running
    ensures !states(n + 1).running
  {
    InvAt(states, moves, n);
    assert Turn(states, moves, n);
    if moves(n).Moves? { StoppedStep(states(n), moves(n).e); }
  }

  lemma {:induction false} StoppedLater(states: nat -> State, moves: nat -> Move, n: nat, m: nat)
    requires IsRun(states, moves) && !states(n).running && n <= m
    ensures !states(m).running
    decreases m
  {
    if n == m {
    } else {
      StoppedLater(states, moves, n, m - 1);
      StoppedStays(states, moves, m - 1);
    }
  }

  lemma StoppedWorks(states: nat -> State, moves: nat -> Move, n: nat)
    requires IsRun(states, moves) && Fair(states, moves)
    requires !states(n).running && !AtRest(states(n))
    ensures exists m: nat :: n <= m && Works(states, moves, m)
  {
    InvAt(states, moves, n);
    if forall e :: !Enabled(states(n), e) { NothingEnabledMeansDone(states(n)); }
    var e :| Enabled(states(n), e);
    if forall m: nat :: n <= m ==> !Works(states, moves, m) {
      forall m: nat | n <= m
        ensures CanWork(states(m), ThreadOf(e)) && NeverIdle(states(m), ThreadOf(e))
      {
        QuietWaits(states, moves, n, m);
        assert states(m) == states(n);
        assert !Idle(states(m), e);
      }
      NotQuiet(states, moves, n, ThreadOf(e));
    }
  }

  lemma StoppedGoesOn(states: nat -> State, moves: nat -> Move, n: nat) returns (k: nat)
    requires IsRun(states, moves) && Fair(states, moves)
    requires !states(n).running && !AtRest(states(n))
    ensures n < k && !states(k).running
    ensures Shape(states(n)) && Shape(states(k)) && Measure(states(k)) < Measure(states(n))
  {
    StoppedWorks(states, moves, n);
    var w: nat :| n <= w && Works(states, moves, w);
    k := w + 1;
    WorkCounts(states, moves, n, w);
    StoppedLater(states, moves, n, k);
  }

  /** Once `running_` is false, a fair run gets to where every call has returned and no thread is left. */
  lemma {:induction false} StoppedComesToRest(states: nat -> State, moves: nat -> Move, n: nat) returns (m: nat)
    requires IsRun(states, moves) && Fair(states, moves)
    requires Shape(states(n)) && !states(n).running
    ensures n <= m && AtRest(states(m))
    decreases Measure(states(n))
  {
    if AtRest(states(n)) {
      m := n;
    } else {
      var k := StoppedGoesOn(states, moves, n);
      m := StoppedComesToRest(states, moves, k);
    }
  }
}
