/** What every run of the command queue keeps to, in terms of the server's own fields. */
module McpSafety {
  import opened Sequences
  import opened McpState
  import opened McpInvariant

  // ------------------------------------------------------------ what a run never undoes

  /** `t` is a later state than `s` as far as call `i` is concerned. */
  predicate Later(s: State, t: State, i: nat)
    requires Shape(s) && SameShape(s, t) && i < |s.clients|
  {
    && t.commands[i].input == s.commands[i].input
    && (s.commands[i].completed ==> t.commands[i] == s.commands[i])
    && (s.commands[i].started ==> t.commands[i].started)
    && (s.commands[i].canceled ==> t.commands[i].canceled)
    && (s.clients[i].Returned? ==> t.clients[i] == s.clients[i])
    && (t.running ==> s.running)
  }

  lemma ClientStepLater(s: State, c: nat, i: nat)
    requires Inv(s) && Enabled(s, Client(c)) && i < |s.clients|
    ensures Later(s, ClientStep(s, c), i)
  {
    assert CallOk(s, i);
  }

  lemma DrainerStepLater(s: State, i: nat)
    requires Inv(s) && Enabled(s, Drainer) && i < |s.clients|
    ensures Later(s, DrainerStep(s), i)
  {
    assert CallOk(s, i);
  }

  lemma StopStepLater(s: State, k: nat, i: nat)
    requires Inv(s) && Enabled(s, Stop(k)) && i < |s.clients|
    ensures Later(s, StopStep(s, k), i)
  {
    assert CallOk(s, i);
  }

  lemma StepLater(s: State, e: Event, i: nat)
    requires Inv(s) && Enabled(s, e) && i < |s.clients|
    ensures Later(s, Step(s, e), i)
  {
    match e
    case Client(c) => ClientStepLater(s, c, i);
    case Drainer => DrainerStepLater(s, i);
    case Stop(k) => StopStepLater(s, k, i);
    case _ =>
  }

  /**
  `completed` and `result` are written once, flags are never taken back, a call returns
  once, and `running_` never comes back. So the reads that `queue_and_wait` makes without
  a lock, after its wait loop, see what the loop saw.
  */
  lemma {:induction false} WriteOnce(s: State, es: seq<Event>, t: State, i: nat)
    requires Inv(s) && Runs(s, es, t) && i < |s.clients|
    ensures SameShape(s, t) && Later(s, t, i)
    decreases |es|
  {
    if es == [] {
    } else {
      var u := Step(s, es[0]);
      StepLater(s, es[0], i);
      StepInv(s, es[0]);
      WriteOnce(u, es[1..], t, i);
    }
  }

  // ------------------------------------------------------------ cancel against start

  predicate Executed(s: State, i: nat) {
    i in ExecutedIds(s.log)
  }

  lemma ExecutedMeansStarted(s: State, i: nat)
    requires Inv(s) && Executed(s, i)
    ensures i < |s.clients| && s.commands[i].started
  {
    var n :| 0 <= n < |s.log| && s.log[n].id == i;
  }

  lemma NeverStartedAndCanceled(s: State, i: nat)
    requires Reachable(s)
    ensures i < |s.commands| ==> !(s.commands[i].started && s.commands[i].canceled)
  {
    ReachableInv(s);
    if i < |s.clients| { assert CallOk(s, i); }
  }

  /**
  A call that gave up in the queue has left nothing behind: from then on its command is in
  no queue and is never executed, even when the drainer had popped it before the erase.
  */
  lemma TimedOutNeverRuns(s: State, i: nat, es: seq<Event>, t: State)
    requires Reachable(s) && Shape(s) && i < |s.clients|
    requires s.clients[i].Returned? && s.clients[i].exit.TimeoutExit?
    requires Runs(s, es, t)
    ensures i !in t.queue && !Executed(t, i)
    ensures i < |t.clients| && t.clients[i] == s.clients[i]
  {
    ReachableInv(s);
    WriteOnce(s, es, t, i);
    RunInv(s, es, t);
    assert CallOk(t, i);
    if Executed(t, i) { ExecutedMeansStarted(t, i); }
  }

  // ------------------------------------------------------------ answers

  /** Entry `n` of the log is the only execution of `i`. */
  predicate OnlyExecution(log: seq<Execution>, n: nat, i: nat) {
    n < |log| && log[n].id == i && forall m :: 0 <= m < |log| && log[m].id == i ==> m == n
  }

  lemma StartedAndCompleted(s: State, i: nat) returns (n: nat)
    requires Inv(s) && i < |s.clients| && s.commands[i].started && s.commands[i].completed
    ensures OnlyExecution(s.log, n, i)
    ensures s.log[n].input == s.commands[i].input
    ensures ResultText(s.log[n].outcome) == s.commands[i].result
  {
    assert CallOk(s, i);
    var m :| 0 <= m < |s.log| && s.log[m].id == i && ResultText(s.log[m].outcome) == s.commands[i].result;
    n := m;
  }

  lemma StoppedIsError()
    ensures IsError(STOPPED)
  {
  }

  /** Only a text the callback returned can be without the error prefix. */
  lemma ResultIsText(o: Outcome)
    requires !IsError(ResultText(o))
    ensures o == Text(ResultText(o))
  {
  }

  lemma InputsStay(inputs: seq<string>, stopCalls: nat, es: seq<Event>, s: State, i: nat)
    requires Runs(Init(inputs, stopCalls), es, s) && i < |inputs|
    ensures Inv(s) && |s.clients| == |inputs| && s.commands[i].input == inputs[i]
  {
    var s0 := Init(inputs, stopCalls);
    InitInv(inputs, stopCalls);
    WriteOnce(s0, es, s, i);
    RunInv(s0, es, s);
  }

  /**
  A call reports success exactly when it returns the text the callback returned, without
  the error prefix, for the one execution of the call's own input.
  */
  lemma SuccessIsTheCallbacksAnswer(
    inputs: seq<string>, stopCalls: nat, es: seq<Event>, s: State, i: nat)
    requires Runs(Init(inputs, stopCalls), es, s) && i < |inputs|
    requires |s.clients| == |inputs| && s.clients[i].Returned?
    ensures s.clients[i].reply.success <==>
              && s.clients[i].exit.AnswerExit?
              && !("Error: " <= s.clients[i].reply.payload)
              && exists n: nat :: OnlyExecution(s.log, n, i) &&
                   s.log[n] == Execution(i, inputs[i], Text(s.clients[i].reply.payload))
  {
    InputsStay(inputs, stopCalls, es, s, i);
    assert CallOk(s, i);
    var r := s.clients[i].reply;
    if r.success {
      StoppedIsError();
      var n := StartedAndCompleted(s, i);
      ResultIsText(s.log[n].outcome);
    }
  }

  /** What a call is told about one execution of its command: the text returned, or why there is none. */
  predicate Tells(payload: string, o: Outcome) {
    match o
    case Text(t) => payload == t
    case Throws(w) => payload == "Error: " + w
    case NoHandler => payload == "Error: No handler for command type"
  }

  /** A failed answer is an error the callback's execution produced, or the reply of `stop` to a command never run. */
  lemma FailureIsErrorOrStop(s: State, i: nat)
    requires Reachable(s) && Shape(s) && i < |s.clients|
    requires s.clients[i].Returned? && s.clients[i].exit.AnswerExit? && !s.clients[i].reply.success
    ensures "Error: " <= s.clients[i].reply.payload
    ensures if s.commands[i].started then
              exists n: nat :: OnlyExecution(s.log, n, i) && Tells(s.clients[i].reply.payload, s.log[n].outcome)
            else s.clients[i].reply.payload == "Error: MCP server stopped" && !s.running
    ensures !s.commands[i].started ==> NeverExecuted(s, i)
  {
    ReachableInv(s);
    assert CallOk(s, i);
    if s.commands[i].started {
      var n := StartedAndCompleted(s, i);
    } else {
      NotStartedNeverRuns(s, i);
    }
  }

  ghost predicate NeverExecuted(s: State, i: nat)
    requires Shape(s)
  {
    forall es, t :: Runs(s, es, t) ==> !Executed(t, i)
  }

  /**
  What the reply to call `i` may be, and what it means. An answer tells what its only
  execution did, and succeeds unless that is an error; everything else is the server's own
  error, and only "stopped" leaves open whether the command runs.
  */
  ghost predicate RepliesTruly(s: State, i: nat, input: string, r: Reply)
    requires Shape(s) && i < |s.clients| && s.clients[i].Returned?
  {
    match s.clients[i].exit
    case NotRunningExit =>
      r == Reply(false, "Error: MCP server is not running") && !s.running && i !in s.admitted && NeverExecuted(s, i)
    case FullExit =>
      r == Reply(false, "Error: MCP queue is full") && |s.admitted| >= 64 && i !in s.admitted && NeverExecuted(s, i)
    case TimeoutExit =>
      r == Reply(false, "Error: MCP request timed out in queue") && i in s.admitted && NeverExecuted(s, i)
    case StoppedExit =>
      r == Reply(false, "Error: MCP server stopped") && !s.running && i in s.admitted
    case FallbackExit => false
    case AnswerExit =>
      && i in s.admitted
      && (r.success <==> !("Error: " <= r.payload))
      && ((exists n: nat :: && OnlyExecution(s.log, n, i) && s.log[n].input == input
                            && Tells(r.payload, s.log[n].outcome))
          || (r.payload == "Error: MCP server stopped" && !s.running && NeverExecuted(s, i)))
  }

  lemma NotStartedNeverRuns(s: State, i: nat)
    requires Inv(s) && i < |s.clients| && !s.commands[i].started && s.clients[i].Returned?
    requires s.commands[i].canceled || s.places[i].Outside? || s.commands[i].completed
    ensures NeverExecuted(s, i)
  {
    forall es, t | Runs(s, es, t)
      ensures !Executed(t, i)
    {
      WriteOnce(s, es, t, i);
      RunInv(s, es, t);
      assert CallOk(s, i) && CallOk(t, i);
      if Executed(t, i) { ExecutedMeansStarted(t, i); }
    }
  }

  /** A call is refused for a full queue only when that many commands were admitted, and as not running only by then. */
  ghost predicate RefusalsOk(s: State) {
    forall i :: 0 <= i < |s.clients| && s.clients[i].Returned? ==>
      && (s.clients[i].exit.NotRunningExit? ==> !s.running)
      && (s.clients[i].exit.FullExit? ==> |s.admitted| >= 64)
  }

  lemma AdmitRefusal(s: State, i: nat)
    requires Inv(s) && RefusalsOk(s) && i < |s.clients| && s.clients[i].Admission?
    ensures RefusalsOk(Admit(s, i))
  {
    SubsequenceLength(s.popped + s.queue, s.admitted);
  }

  lemma ClientRefusal(s: State, i: nat)
    requires Inv(s) && RefusalsOk(s) && Enabled(s, Client(i))
    ensures RefusalsOk(ClientStep(s, i))
  {
    if s.clients[i].Admission? { AdmitRefusal(s, i); }
  }

  lemma StepRefusals(s: State, e: Event)
    requires Inv(s) && RefusalsOk(s) && Enabled(s, e)
    ensures RefusalsOk(Step(s, e))
  {
    match e
    case Client(i) => ClientRefusal(s, i);
    case Drainer =>
    case Stop(k) =>
    case _ =>
  }

  lemma {:induction false} RunRefusals(s: State, es: seq<Event>, t: State)
    requires Inv(s) && RefusalsOk(s) && Runs(s, es, t)
    ensures RefusalsOk(t)
    decreases |es|
  {
    if es == [] {
    } else {
      StepInv(s, es[0]);
      StepRefusals(s, es[0]);
      RunRefusals(Step(s, es[0]), es[1..], t);
    }
  }

  lemma ReachableRefusals(s: State)
    requires Reachable(s)
    ensures RefusalsOk(s)
  {
    var inputs, stopCalls, es :| Runs(Init(inputs, stopCalls), es, s);
    InitInv(inputs, stopCalls);
    RunRefusals(Init(inputs, stopCalls), es, s);
  }

  lemma ReplyIsTrue(s: State, i: nat)
    requires Reachable(s) && Shape(s) && i < |s.clients| && s.clients[i].Returned?
    ensures RepliesTruly(s, i, s.commands[i].input, s.clients[i].reply)
  {
    ReachableInv(s);
    ReachableRefusals(s);
    assert CallOk(s, i);
    if s.clients[i].exit.AnswerExit? && s.commands[i].started {
      var n := StartedAndCompleted(s, i);
      assert Tells(s.clients[i].reply.payload, s.log[n].outcome);
    } else if !s.clients[i].exit.StoppedExit? {
      NotStartedNeverRuns(s, i);
    }
  }

  /** A call is refused at the queue exactly when 64 commands wait in it; otherwise its own goes to the end. */
  lemma RefusedAtSixtyFour(s: State, i: nat)
    requires Shape(s) && Enabled(s, Client(i)) && s.clients[i].Admission?
    ensures var t := Step(s, Client(i));
            if |s.queue| >= 64 then t.queue == s.queue && t.clients[i].Returned?
            else t.queue == s.queue + [i] && !t.clients[i].Returned?
  {
  }

  /** A call made when `running_` is already down is turned away, and never comes near the queue. */
  lemma {:induction false} NoLateEntry(s: State, es: seq<Event>, t: State, i: nat)
    requires Inv(s) && Runs(s, es, t) && !s.running && i < |s.clients| && s.clients[i].Entry?
    ensures i < |t.clients| && i !in t.admitted
    ensures t.clients[i].Entry? ||
            t.clients[i] == Returned(NotRunningExit, Reply(false, "Error: MCP server is not running"))
    decreases |es|
  {
    assert CallOk(s, i);
    if es == [] {
    } else {
      StepInv(s, es[0]);
      if es[0] == Client(i) {
        TurnedAway(Step(s, es[0]), es[1..], t, i);
      } else {
        StaysAtEntry(s, es[0], i);
        NoLateEntry(Step(s, es[0]), es[1..], t, i);
      }
    }
  }

  lemma StaysAtEntry(s: State, e: Event, i: nat)
    requires Shape(s) && Enabled(s, e) && e != Client(i) && !s.running && i < |s.clients| && s.clients[i].Entry?
    ensures !Step(s, e).running && Step(s, e).clients[i].Entry?
  {
  }

  lemma TurnedAway(s: State, es: seq<Event>, t: State, i: nat)
    requires Inv(s) && Runs(s, es, t) && i < |s.clients|
    requires s.clients[i] == Returned(NotRunningExit, Reply(false, "Error: MCP server is not running"))
    ensures i < |t.clients| && t.clients[i] == s.clients[i] && i !in t.admitted
  {
    WriteOnce(s, es, t, i);
    RunInv(s, es, t);
    assert CallOk(t, i);
  }

  /** The client of a canceled command is past reading it, so the empty result stored for it is never read. */
  lemma CanceledResultIsNeverRead(s: State, i: nat, es: seq<Event>, t: State)
    requires Reachable(s) && Shape(s) && i < |s.clients| && s.commands[i].canceled
    requires Runs(s, es, t)
    ensures i < |t.clients|
    ensures t.clients[i].Erase? || (t.clients[i].Returned? && t.clients[i].reply == Reply(false, TIMED_OUT))
  {
    ReachableInv(s);
    WriteOnce(s, es, t, i);
    RunInv(s, es, t);
    assert CallOk(t, i);
  }

  /** In a single life of the server the last resort after the wait loop is never taken. */
  lemma FallbackUnreachable(s: State, i: nat)
    requires Reachable(s)
    ensures i < |s.clients| && s.clients[i].Returned? ==> !s.clients[i].exit.FallbackExit?
  {
    ReachableInv(s);
    if i < |s.clients| { assert CallOk(s, i); }
  }

  // ------------------------------------------------------------ conservation

  predicate InListOf(s: State, k: nat, i: nat) {
    k < |s.stops| && s.stops[k].Completing? && i in s.stops[k].rest
  }

  ghost predicate InSomeList(s: State, i: nat) {
    exists k: nat :: InListOf(s, k, i)
  }

  /** How many of four places a command is in. */
  ghost function PlacesHeld(s: State, i: nat): nat
    requires Shape(s) && i < |s.clients|
  {
    (if i in s.queue then 1 else 0) + (if Holds(s.drainer, i) then 1 else 0) +
    (if InSomeList(s, i) then 1 else 0) + (if s.commands[i].completed then 1 else 0)
  }

  /**
  Every admitted command is in exactly one place: the queue, the drainer's hand, the list
  of one call of `stop`, completed, or taken out by its own client after a timeout. No
  place holds it twice, and a command that was not admitted is in none.
  */
  lemma Conservation(s: State, i: nat)
    requires Reachable(s) && Shape(s) && i < |s.clients|
    ensures NoDup(s.admitted) && NoDup(s.queue)
    ensures forall k: nat :: InListOf(s, k, i) ==> NoDup(s.stops[k].rest)
    ensures forall k: nat, m: nat :: InListOf(s, k, i) && InListOf(s, m, i) ==> k == m
    ensures i !in s.admitted ==> PlacesHeld(s, i) == 0
    ensures i in s.admitted ==>
              || PlacesHeld(s, i) == 1
              || (PlacesHeld(s, i) == 0 && s.commands[i].canceled && !s.commands[i].started &&
                  s.clients[i] == Returned(TimeoutExit, Reply(false, TIMED_OUT)))
  {
    ReachableInv(s);
    assert CallOk(s, i);
    forall k: nat | InListOf(s, k, i)
      ensures s.places[i] == InList(k) && NoDup(s.stops[k].rest)
    {
      assert ListOk(s.stops[k], k, s.places);
    }
    if s.places[i].InList? {
      assert ListOk(s.stops[s.places[i].k], s.places[i].k, s.places);
      assert InListOf(s, s.places[i].k, i);
    }
  }

  // ------------------------------------------------------------ serial, in order, at most once

  /** At most one command is started and not completed, and the drainer has it. */
  lemma SerialExecution(s: State, i: nat)
    requires Reachable(s) && Shape(s) && i < |s.clients|
    ensures s.commands[i].started && !s.commands[i].completed <==>
            (s.drainer.Executing? || s.drainer.Storing?) && s.drainer.id == i
    ensures |s.queue| <= 64
  {
    ReachableInv(s);
    assert CallOk(s, i);
  }

  /** Commands execute in the order they were admitted, none of them twice. */
  lemma ExecutedInOrder(s: State)
    requires Reachable(s)
    ensures Subsequence(ExecutedIds(s.log), s.admitted)
    ensures NoDup(s.admitted) && NoDup(ExecutedIds(s.log))
  {
    ReachableInv(s);
    SubsequenceTakePrefix(s.popped, s.queue, s.admitted);
    if s.drainer.Claimed? || s.drainer.Executing? {
      var p := s.popped[..|s.popped| - 1];
      SubsequenceTakePrefix(p, [s.drainer.id], s.admitted) by {
        assert p + [s.drainer.id] == s.popped;
      }
      SubsequenceTransitive(ExecutedIds(s.log), p, s.admitted);
    } else {
      SubsequenceTransitive(ExecutedIds(s.log), s.popped, s.admitted);
    }
  }

  // ------------------------------------------------------------ bounded overtaking

  /** A command that has left the queue does not come back. */
  lemma {:induction false} StaysOut(s: State, es: seq<Event>, t: State, c: nat)
    requires Inv(s) && Runs(s, es, t) && c in s.admitted && c !in s.queue && c < |s.clients|
    ensures c !in t.queue
    decreases |es|
  {
    if es == [] {
    } else {
      var u := Step(s, es[0]);
      StepInv(s, es[0]);
      StepAdmitted(s, es[0], c);
      StaysOut(u, es[1..], t, c);
    }
  }

  lemma StepAdmitted(s: State, e: Event, c: nat)
    requires Inv(s) && Enabled(s, e) && c in s.admitted && c < |s.clients|
    ensures c in Step(s, e).admitted
    ensures c in Step(s, e).queue ==> c in s.queue
  {
    if e.Client? { ClientAdmitted(s, e.i, c); }
  }

  lemma ClientAdmitted(s: State, i: nat, c: nat)
    requires Inv(s) && Enabled(s, Client(i)) && c in s.admitted && c < |s.clients|
    ensures c in ClientStep(s, i).admitted
    ensures c in ClientStep(s, i).queue ==> c in s.queue
  {
    assert CallOk(s, i);
    if s.clients[i].Erase? && i in s.queue { WithoutMembers(s.queue, i); }
  }

  /** One step moves a queued command forward by what was popped, and never back. */
  lemma StepForward(s: State, e: Event, k: nat, j: nat)
    requires Inv(s) && Enabled(s, e) && k < |s.queue|
    requires j < |Step(s, e).queue| && Step(s, e).queue[j] == s.queue[k]
    ensures j + |Step(s, e).popped| - |s.popped| <= k
  {
    if e.Client? { ClientForward(s, e.i, k, j); }
  }

  lemma ClientForward(s: State, i: nat, k: nat, j: nat)
    requires Inv(s) && Enabled(s, Client(i)) && k < |s.queue|
    requires j < |ClientStep(s, i).queue| && ClientStep(s, i).queue[j] == s.queue[k]
    ensures j <= k && ClientStep(s, i).popped == s.popped
  {
    assert CallOk(s, i);
  }

  /**
  First come, first served: whatever is admitted or given up meanwhile, the command at
  position `k` of the queue is popped after at most `k` others.
  */
  lemma {:induction false} OvertakenByAtMost(s: State, es: seq<Event>, t: State, k: nat, j: nat)
    requires Inv(s) && Runs(s, es, t) && k < |s.queue|
    requires j < |t.queue| && t.queue[j] == s.queue[k]
    ensures j + |t.popped| - |s.popped| <= k
    decreases |es|
  {
    if es == [] {
    } else {
      var u := Step(s, es[0]);
      var c := s.queue[k];
      StepInv(s, es[0]);
      assert c in s.queue;
      StepAdmitted(s, es[0], c);
      if c in u.queue {
        var m :| 0 <= m < |u.queue| && u.queue[m] == c;
        StepForward(s, es[0], k, m);
        OvertakenByAtMost(u, es[1..], t, m, j);
      } else {
        StaysOut(u, es[1..], t, c);
      }
    }
  }
}
