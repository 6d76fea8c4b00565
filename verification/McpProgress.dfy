/**
Progress of the command queue. A measure of the work still to do never rises, and falls
with every step but the two ways of waiting: the drainer polling an empty queue and a
client waiting for its started command, both only while the server runs.
*/
module McpProgress {
  import opened Sequences
  import opened McpState
  import opened McpInvariant

  const QUEUE_WEIGHT: nat := 5

  function ClientRank(pc: ClientPc, woken: bool): nat {
    match pc
    case Entry => 13
    case Admission => 12
    case Guard => if woken then 4 else 6
    case QueueWait => 5
    case ReadCompleted => 3
    case ReadPrefix => 2
    case Erase => 1
    case ReadRunning => 1
    case ReadPayload(_) => 1
    case Returned(_, _) => 0
  }

  function DrainerRank(d: DrainerPc, running: bool): nat {
    match d
    case Claimed(_) => 10
    case Executing(_) => 9
    case Storing(_, _) => 8
    case InterruptCheck => 7
    case QueuePoll => if running then 7 else 6
    case LoopHead => if running then 7 else 1
    case Stopping => 2
    case Exited => 0
  }

  function StopRank(p: StopPc): nat {
    match p
    case NotCalled => 3
    case Swapping => 2
    case Completing(rest) => 1 + |rest|
    case Finished => 0
  }

  function ClientRanks(s: State): (r: seq<nat>)
    requires Shape(s)
    ensures |r| == |s.clients|
    ensures forall i :: 0 <= i < |r| ==> r[i] == ClientRank(s.clients[i], Woken(s, i))
  {
    seq(|s.clients|, i requires 0 <= i < |s.clients| => ClientRank(s.clients[i], Woken(s, i)))
  }

  function StopRanks(stops: seq<StopPc>): (r: seq<nat>)
    ensures |r| == |stops|
    ensures forall k :: 0 <= k < |r| ==> r[k] == StopRank(stops[k])
  {
    seq(|stops|, k requires 0 <= k < |stops| => StopRank(stops[k]))
  }

  function Measure(s: State): nat
    requires Shape(s)
  {
    Sum(ClientRanks(s)) + QUEUE_WEIGHT * |s.queue| + DrainerRank(s.drainer, s.running) + Sum(StopRanks(s.stops))
  }

  /** The two ways of waiting. */
  predicate Idle(s: State, e: Event)
    requires Shape(s) && Enabled(s, e)
  {
    s.running &&
    match e
    case Client(i) => s.clients[i].Guard? && s.commands[i].started && !s.commands[i].completed
    case Drainer => s.drainer.LoopHead? || s.drainer.InterruptCheck? || (s.drainer.QueuePoll? && s.queue == [])
    case _ => false
  }

  /** `e` takes `s` to `t`: the measure falls, or the step is idle and leaves it and `running_` as they are. */
  predicate Falls(s: State, e: Event, t: State)
    requires Shape(s) && Enabled(s, e) && Shape(t)
  {
    if Idle(s, e) then t.running && Measure(t) == Measure(s) else Measure(t) < Measure(s)
  }

  lemma ClientsSame(s: State, t: State)
    requires Shape(s) && Shape(t) && |s.clients| == |t.clients|
    requires forall i :: 0 <= i < |s.clients| ==> t.clients[i] == s.clients[i] && (Woken(s, i) ==> Woken(t, i))
    ensures Sum(ClientRanks(t)) <= Sum(ClientRanks(s))
  {
    SumMonotone(ClientRanks(s), ClientRanks(t));
  }

  /** Clients other than `i` stay as they are, and `i` drops by `drop`. */
  lemma ClientDrops(s: State, t: State, i: nat, drop: nat)
    requires Shape(s) && Shape(t) && |s.clients| == |t.clients| && i < |s.clients|
    requires forall j :: 0 <= j < |s.clients| && j != i ==> t.clients[j] == s.clients[j] && Woken(s, j) == Woken(t, j)
    requires ClientRank(t.clients[i], Woken(t, i)) + drop <= ClientRank(s.clients[i], Woken(s, i))
    ensures Sum(ClientRanks(t)) + drop <= Sum(ClientRanks(s))
  {
    SumDrops(ClientRanks(s), ClientRanks(t), i, drop);
  }

  lemma AdmitMeasure(s: State, i: nat)
    requires Inv(s) && i < |s.clients| && s.clients[i].Admission?
    ensures Measure(Admit(s, i)) < Measure(s)
  {
    assert CallOk(s, i);
    ClientDrops(s, Admit(s, i), i, 6);
  }

  lemma EraseMeasure(s: State, i: nat)
    requires Inv(s) && i < |s.clients| && s.clients[i].Erase?
    ensures Measure(EraseOwn(s, i)) < Measure(s)
  {
    if i in s.queue { WithoutMembers(s.queue, i); }
    ClientDrops(s, EraseOwn(s, i), i, 1);
  }

  lemma MoveMeasure(s: State, i: nat, pc: ClientPc)
    requires Shape(s) && i < |s.clients|
    requires ClientRank(pc, Woken(s, i)) < ClientRank(s.clients[i], Woken(s, i))
    ensures Measure(At(s, i, pc)) < Measure(s)
  {
    ClientDrops(s, At(s, i, pc), i, 1);
  }

  lemma CancelMeasure(s: State, i: nat)
    requires Shape(s) && Enabled(s, Deadline(i))
    ensures Measure(Cancel(s, i)) < Measure(s)
  {
    ClientDrops(s, Cancel(s, i), i, 1);
  }

  /** The other steps of a client. */
  lemma ClientMeasure(s: State, i: nat)
    requires Inv(s) && Enabled(s, Client(i)) && !Idle(s, Client(i))
    requires !s.clients[i].Admission? && !s.clients[i].Erase?
    ensures Measure(ClientStep(s, i)) < Measure(s)
  {
    var pc := ClientStep(s, i).clients[i];
    MoveMeasure(s, i, pc);
    assert ClientStep(s, i) == At(s, i, pc);
  }

  /** The drainer's moves between loop head and poll, and out of the loop. */
  lemma DrainerMoveMeasure(s: State, pc: DrainerPc)
    requires Shape(s)
    ensures Shape(GoTo(s, pc)) ==>
              Measure(GoTo(s, pc)) + DrainerRank(s.drainer, s.running) == Measure(s) + DrainerRank(pc, s.running)
  {
    if Shape(GoTo(s, pc)) { assert ClientRanks(GoTo(s, pc)) == ClientRanks(s); }
  }

  /** A command the drainer works on is one nobody waits for less than before. */
  lemma DrainerWorkMeasure(s: State, t: State)
    requires Shape(s) && Shape(t) && t.stops == s.stops && t.running == s.running && t.clients == s.clients
    requires forall i :: 0 <= i < |s.clients| && Woken(s, i) ==> Woken(t, i)
    requires QUEUE_WEIGHT * |t.queue| + DrainerRank(t.drainer, t.running) <
             QUEUE_WEIGHT * |s.queue| + DrainerRank(s.drainer, s.running)
    ensures Measure(t) < Measure(s)
  {
    ClientsSame(s, t);
  }

  lemma DrainerMeasure(s: State)
    requires Inv(s) && Enabled(s, Drainer)
    ensures Falls(s, Drainer, DrainerStep(s))
  {
    if s.drainer.Claimed? || s.drainer.Storing? || (s.drainer.QueuePoll? && s.queue != []) {
      DrainerWorkMeasure(s, DrainerStep(s));
    } else {
      DrainerMoves(s);
    }
  }

  lemma DrainerMoves(s: State)
    requires Shape(s) && Enabled(s, Drainer)
    requires !s.drainer.Claimed? && !s.drainer.Storing? && !(s.drainer.QueuePoll? && s.queue != [])
    ensures Falls(s, Drainer, DrainerStep(s))
  {
    var pc := DrainerStep(s).drainer;
    assert DrainerStep(s) == GoTo(s, pc);
    DrainerMoveMeasure(s, pc);
  }

  lemma StopMeasure(s: State, k: nat)
    requires Inv(s) && Enabled(s, Stop(k))
    ensures Measure(Step(s, Stop(k))) < Measure(s)
  {
    var t := Step(s, Stop(k));
    var p := s.stops[k];
    ClientsSame(s, t);
    if p.Swapping? {
      var a, b := StopRanks(s.stops), StopRanks(t.stops);
      SumSwap(a, k, 1 + |s.queue|);
      assert b == a[k := 1 + |s.queue|];
    } else {
      SumDrops(StopRanks(s.stops), StopRanks(t.stops), k, 1);
    }
  }

  lemma {:induction false} SumSwap(a: seq<nat>, k: nat, x: nat)
    requires k < |a|
    ensures Sum(a[k := x]) + a[k] == Sum(a) + x
  {
    if k == 0 {
      assert a[k := x][1..] == a[1..];
    } else {
      SumSwap(a[1..], k - 1, x);
      assert a[k := x][1..] == a[1..][k - 1 := x];
    }
  }

  lemma ClientStepMeasure(s: State, i: nat)
    requires Inv(s) && Enabled(s, Client(i))
    ensures Falls(s, Client(i), ClientStep(s, i))
  {
    if s.clients[i].Admission? { AdmitMeasure(s, i); }
    else if s.clients[i].Erase? { EraseMeasure(s, i); }
    else if !Idle(s, Client(i)) { ClientMeasure(s, i); }
  }

  /** So it is with every step. */
  lemma StepMeasure(s: State, e: Event)
    requires Inv(s) && Enabled(s, e)
    ensures Falls(s, e, Step(s, e))
  {
    match e
    case Client(i) => ClientStepMeasure(s, i);
    case Deadline(i) => CancelMeasure(s, i);
    case Drainer => DrainerMeasure(s);
    case Interrupt => DrainerMoveMeasure(s, Stopping);
    case Callback(o) => DrainerWorkMeasure(s, Execute(s, o));
    case Stop(k) => StopMeasure(s, k);
  }

  /** The number of steps of a run that are not idle. */
  function Work(s: State, es: seq<Event>, t: State): nat
    requires Shape(s) && Runs(s, es, t)
    decreases |es|
  {
    if es == [] then 0
    else (if Idle(s, es[0]) then 0 else 1) + Work(Step(s, es[0]), es[1..], t)
  }

  lemma {:induction false} WorkBound(s: State, es: seq<Event>, t: State)
    requires Inv(s) && Runs(s, es, t)
    ensures Inv(t) && Work(s, es, t) + Measure(t) <= Measure(s)
    decreases |es|
  {
    if es == [] {
    } else {
      StepInv(s, es[0]);
      StepMeasure(s, es[0]);
      WorkBound(Step(s, es[0]), es[1..], t);
    }
  }

  lemma {:induction false} SumConstant(a: seq<nat>, x: nat)
    requires forall i :: 0 <= i < |a| ==> a[i] == x
    ensures Sum(a) == x * |a|
  {
    if a == [] {
    } else {
      SumConstant(a[1..], x);
    }
  }

  /** However a run of `n` calls is scheduled, all but a number of its steps linear in `n` are idle. */
  lemma WorkIsLinear(inputs: seq<string>, stopCalls: nat, es: seq<Event>, t: State)
    requires Runs(Init(inputs, stopCalls), es, t)
    ensures Work(Init(inputs, stopCalls), es, t) <= 13 * |inputs| + 3 * stopCalls + 10
  {
    var s := Init(inputs, stopCalls);
    InitInv(inputs, stopCalls);
    WorkBound(s, es, t);
    SumConstant(ClientRanks(s), 13);
    SumConstant(StopRanks(s.stops), 3);
  }

  lemma StoppedStep(s: State, e: Event)
    requires Inv(s) && !s.running && Enabled(s, e)
    ensures Inv(Step(s, e)) && !Step(s, e).running && Measure(Step(s, e)) < Measure(s)
  {
    StepInv(s, e);
    StepMeasure(s, e);
  }

  /** Once `running_` is false every run is finite, and this bounds its length. */
  lemma {:induction false} StoppedRunsEnd(s: State, es: seq<Event>, t: State)
    requires Inv(s) && !s.running && Runs(s, es, t)
    ensures |es| <= Measure(s)
    decreases |es|
  {
    if es == [] {
    } else {
      StoppedStep(s, es[0]);
      StoppedRunsEnd(Step(s, es[0]), es[1..], t);
    }
  }

  /** Who has to move for call `i` to get on: the drainer if its command is being executed. */
  function Awaited(s: State, i: nat): Thread
    requires Shape(s) && i < |s.clients|
  {
    if s.clients[i].Guard? && s.running && s.commands[i].started && !s.commands[i].completed then DrainerThread
    else ClientThread(i)
  }

  /** While a call has not returned, the thread it waits for has a step that is not idle. */
  lemma NeverStuck(s: State, i: nat) returns (e: Event)
    requires Inv(s) && i < |s.clients| && !s.clients[i].Returned?
    ensures Enabled(s, e) && !Idle(s, e) && ThreadOf(e) == Awaited(s, i)
  {
    assert CallOk(s, i);
    if s.clients[i].QueueWait? && !Woken(s, i) {
      e := Deadline(i);
    } else if s.clients[i].Guard? && s.running && s.commands[i].started && !s.commands[i].completed {
      e := if s.drainer.Executing? then Callback(NoHandler) else Drainer;
    } else {
      e := Client(i);
    }
  }

  predicate AllReturned(s: State) {
    forall i :: 0 <= i < |s.clients| ==> s.clients[i].Returned?
  }

  /** When nothing can move any more, every call has returned, the drainer is gone, and so is every `stop`. */
  lemma NothingEnabledMeansDone(s: State)
    requires Inv(s) && !s.running
    requires forall e :: !Enabled(s, e)
    ensures AllReturned(s) && s.drainer.Exited?
    ensures forall k :: 1 <= k < |s.stops| ==> s.stops[k].Finished?
  {
    if i :| 0 <= i < |s.clients| && !s.clients[i].Returned? {
      var e := NeverStuck(s, i);
    }
    assert !Enabled(s, Drainer) && !Enabled(s, Callback(NoHandler)) && !Enabled(s, Stop(0));
    forall k | 1 <= k < |s.stops|
      ensures s.stops[k].Finished?
    {
      assert !Enabled(s, Stop(k));
    }
  }

  /** Every run can be continued until every call has returned. */
  lemma {:induction false} EveryCallCanReturn(s: State) returns (es: seq<Event>, t: State)
    requires Inv(s)
    ensures Runs(s, es, t) && AllReturned(t)
    decreases Measure(s)
  {
    if i :| 0 <= i < |s.clients| && !s.clients[i].Returned? {
      var e := NeverStuck(s, i);
      StepInv(s, e);
      StepMeasure(s, e);
      var rest: seq<Event>;
      rest, t := EveryCallCanReturn(Step(s, e));
      es := [e] + rest;
      assert es[1..] == rest;
    } else {
      es, t := [], s;
    }
  }
}
