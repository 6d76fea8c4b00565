/**
What the reply "MCP server stopped" promises. It does not promise that the command never
runs: a client can push after `stop` has swapped the queue out, and a drainer that was
already past its own look at `running_` still pops and runs a command, but no second one.
*/
module McpStopped {
  import opened Sequences
  import opened McpState
  import opened McpInvariant
  import opened McpSafety

  /** Everybody that called `i` an answer has: its command can only run if the drainer gets to it. */
  ghost predicate CanStillRun(s: State, i: nat)
    requires Shape(s) && i < |s.clients|
  {
    || s.drainer == Claimed(i)
    || s.drainer == Executing(i)
    || ((s.drainer.InterruptCheck? || s.drainer.QueuePoll?) && i in s.queue &&
        forall j :: 0 <= j < FirstIndex(s.queue, i) ==> s.clients[s.queue[j]].Erase?)
  }

  ghost predicate RunsLater(s: State, i: nat)
    requires Shape(s)
  {
    exists es, t :: Runs(s, es, t) && Executed(t, i)
  }

  predicate ToldStopped(s: State, i: nat) {
    i < |s.clients| && s.clients[i].Returned? && s.clients[i].exit.StoppedExit?
  }

  lemma RunsLaterStep(s: State, e: Event, i: nat)
    requires Shape(s) && Enabled(s, e) && RunsLater(Step(s, e), i)
    ensures RunsLater(s, i)
  {
    var es, t :| Runs(Step(s, e), es, t) && Executed(t, i);
    assert ([e] + es)[1..] == es;
    assert Runs(s, [e] + es, t);
  }

  /** Whoever is in front of `i` gave up. */
  lemma FrontGaveUp(s: State, i: nat)
    requires Inv(s) && ToldStopped(s, i) && CanStillRun(s, i)
    requires !s.drainer.Claimed? && !s.drainer.Executing? && s.queue[0] != i
    ensures i in s.queue && s.clients[s.queue[0]].Erase?
  {
    FirstIndexTail(s.queue, i);
    assert s.clients[s.queue[0]].Erase?;
  }

  /** The erase at the front brings `i` forward. */
  lemma FrontErased(s: State, h: nat, i: nat)
    requires Shape(s) && NoDup(s.queue) && ToldStopped(s, i) && CanStillRun(s, i)
    requires !s.drainer.Claimed? && !s.drainer.Executing? && s.queue[0] == h && h != i
    ensures ToldStopped(EraseOwn(s, h), i) && CanStillRun(EraseOwn(s, h), i)
  {
    var t := EraseOwn(s, h);
    EraseHead(s, h);
    FirstIndexTail(s.queue, i);
    OthersStillErase(s, t, i);
    assert t.clients[i] == s.clients[i] && i in t.queue;
  }

  lemma EraseHead(s: State, h: nat)
    requires Shape(s) && s.queue != [] && s.queue[0] == h
    ensures var t := EraseOwn(s, h);
            && Shape(t) && t.queue == s.queue[1..] && t.drainer == s.drainer && |t.clients| == |s.clients|
            && forall j :: 0 <= j < |s.clients| && j != h ==> t.clients[j] == s.clients[j]
  {
  }

  lemma OthersStillErase(s: State, t: State, i: nat)
    requires Shape(s) && Shape(t) && NoDup(s.queue) && i in s.queue && s.queue[0] != i
    requires t.queue == s.queue[1..] && |t.clients| == |s.clients|
    requires forall j :: 0 <= j < |s.clients| && j != s.queue[0] ==> t.clients[j] == s.clients[j]
    requires forall j :: 0 <= j < FirstIndex(s.queue, i) ==> s.clients[s.queue[j]].Erase?
    ensures forall j :: 0 <= j < FirstIndex(t.queue, i) ==> t.clients[t.queue[j]].Erase?
  {
    FirstIndexTail(s.queue, i);
    forall j | 0 <= j < FirstIndex(t.queue, i)
      ensures t.clients[t.queue[j]].Erase?
    {
      assert t.queue[j] == s.queue[j + 1];
      assert s.queue[0] != s.queue[j + 1];
    }
  }

  lemma FirstIndexTail(q: seq<nat>, i: nat)
    requires i in q && q[0] != i
    ensures FirstIndex(q, i) >= 1 && i in q[1..] && FirstIndex(q, i) == 1 + FirstIndex(q[1..], i)
  {
  }

  function DrainerDistance(d: DrainerPc): nat {
    match d
    case InterruptCheck => 3
    case QueuePoll => 2
    case Claimed(_) => 1
    case _ => 0
  }

  /** `t` is closer to executing `i` than `s` is. */
  ghost predicate Closer(s: State, t: State, i: nat)
    requires Shape(s) && Shape(t)
  {
    && Inv(t) && ToldStopped(t, i) && CanStillRun(t, i)
    && (|t.queue| < |s.queue| ||
        (|t.queue| <= |s.queue| && DrainerDistance(t.drainer) < DrainerDistance(s.drainer)))
  }

  /** The drainer's next step brings it closer to executing `i`. */
  lemma DrainerComesCloser(s: State, i: nat)
    requires Inv(s) && ToldStopped(s, i) && CanStillRun(s, i) && !s.drainer.Executing?
    requires s.drainer.Claimed? || s.queue[0] == i
    ensures Enabled(s, Drainer) && Closer(s, Step(s, Drainer), i)
  {
    assert CallOk(s, i);
    StepInv(s, Drainer);
  }

  lemma EraseComesCloser(s: State, i: nat)
    requires Inv(s) && ToldStopped(s, i) && CanStillRun(s, i)
    requires !s.drainer.Claimed? && !s.drainer.Executing? && s.queue[0] != i
    ensures s.queue != [] && s.clients[s.queue[0]].Erase?
    ensures Closer(s, EraseOwn(s, s.queue[0]), i)
  {
    var h := s.queue[0];
    FrontGaveUp(s, i);
    EraseInv(s, h);
    EraseHead(s, h);
    FrontErased(s, h, i);
  }

  lemma ExecutingRuns(s: State, i: nat)
    requires Shape(s) && s.drainer == Executing(i)
    ensures RunsLater(s, i)
  {
    var t := Execute(s, Text(""));
    assert ExecutedIds(t.log)[|s.log|] == i;
    assert Runs(t, [], t) && Executed(t, i);
    RunsLaterStep(s, Callback(Text("")), i);
  }

  /** What is in front of the command is erased, then it is popped. */
  lemma NextStep(s: State, i: nat) returns (e: Event)
    requires Inv(s) && ToldStopped(s, i) && CanStillRun(s, i) && !s.drainer.Executing?
    ensures Enabled(s, e) && Closer(s, Step(s, e), i)
  {
    if s.drainer.Claimed? || s.queue[0] == i {
      e := Drainer;
      DrainerComesCloser(s, i);
    } else {
      EraseComesCloser(s, i);
      e := Client(s.queue[0]);
      assert Step(s, e) == EraseOwn(s, s.queue[0]);
    }
  }

  /** The run in which the command does execute. */
  lemma {:induction false} PossibleRun(s: State, i: nat)
    requires Inv(s) && ToldStopped(s, i) && CanStillRun(s, i)
    ensures RunsLater(s, i)
    decreases |s.queue|, DrainerDistance(s.drainer)
  {
    if s.drainer.Executing? {
      ExecutingRuns(s, i);
    } else {
      var e := NextStep(s, i);
      PossibleRun(Step(s, e), i);
      RunsLaterStep(s, e, i);
    }
  }

  /** Once out of the drainer's reach, always out of it. */
  lemma StepKeepsOut(s: State, e: Event, i: nat)
    requires Inv(s) && Enabled(s, e) && ToldStopped(s, i) && !CanStillRun(s, i)
    ensures !CanStillRun(Step(s, e), i)
    ensures Executed(Step(s, e), i) ==> Executed(s, i)
  {
    match e
    case Client(c) =>
      if s.clients[c].Erase? && c in s.queue { EraseKeepsOut(s, c, i); } else { ClientKeepsOut(s, e, i); }
    case Deadline(_) => ClientKeepsOut(s, e, i);
    case Drainer => DrainerKeepsOut(s, i);
    case Interrupt =>
    case Callback(o) => assert ExecutedIds(Execute(s, o).log) == ExecutedIds(s.log) + [s.drainer.id];
    case Stop(k) => StopKeepsOut(s, k, i);
  }

  lemma DrainerKeepsOut(s: State, i: nat)
    requires Inv(s) && Enabled(s, Drainer) && ToldStopped(s, i) && !CanStillRun(s, i)
    ensures !CanStillRun(DrainerStep(s), i) && DrainerStep(s).log == s.log
  {
    if s.drainer.QueuePoll? {
      PollKeepsOut(s, i);
    } else {
      assert CallOk(s, i);
    }
  }

  /** The command it pops is not `i`, which would have been within reach. */
  lemma PollKeepsOut(s: State, i: nat)
    requires Shape(s) && s.drainer.QueuePoll? && ToldStopped(s, i) && !CanStillRun(s, i)
    ensures !CanStillRun(Poll(s), i)
  {
    if s.queue != [] && s.queue[0] == i { FirstIndexIs(s.queue, i, 0); }
  }

  lemma EraseKeepsOut(s: State, h: nat, i: nat)
    requires Inv(s) && h < |s.clients| && s.clients[h].Erase? && h in s.queue
    requires ToldStopped(s, i) && !CanStillRun(s, i)
    ensures !CanStillRun(EraseOwn(s, h), i)
  {
    var t := EraseOwn(s, h);
    WithoutMembers(s.queue, h);
    if CanStillRun(t, i) && i in t.queue {
      forall j | 0 <= j < FirstIndex(s.queue, i)
        ensures s.clients[s.queue[j]].Erase?
      {
        if s.queue[j] != h {
          var j' := StillInFront(s.queue, h, i, j);
          assert t.clients[t.queue[j']].Erase?;
        }
      }
    }
  }

  /** What is in front of `i` is so after the erase. */
  lemma StillInFront(q: seq<nat>, h: nat, i: nat, j: nat) returns (j': nat)
    requires NoDup(q) && h in q && i in Without(q, h) && j < FirstIndex(q, i) && q[j] != h
    ensures j' < FirstIndex(Without(q, h), i) && Without(q, h)[j'] == q[j]
  {
    var k, r := FirstIndex(q, h), Without(q, h);
    j' := if j < k then j else j - 1;
    var m := FirstIndex(r, i);
    assert r[m] == if m < k then q[m] else q[m + 1];
  }

  lemma FirstIndexPrefix(q: seq<nat>, r: seq<nat>, i: nat)
    requires q <= r && i in q
    ensures FirstIndex(r, i) == FirstIndex(q, i)
  {
    var a, b := FirstIndex(q, i), FirstIndex(r, i);
    assert q[a] == r[a] == i;
    if b < |q| { assert q[b] == r[b]; }
  }

  /** Nobody in front of `i` goes away when the queue only grows and no wait times out. */
  lemma QueueKeepsOut(s: State, t: State, i: nat)
    requires Shape(s) && Shape(t) && |t.clients| == |s.clients| && i < |s.clients| && !CanStillRun(s, i)
    requires t.drainer == s.drainer && (i in t.queue ==> i in s.queue && s.queue <= t.queue)
    requires forall h :: 0 <= h < |s.clients| && !s.clients[h].Erase? ==> !t.clients[h].Erase?
    ensures !CanStillRun(t, i)
  {
    if i in t.queue && (s.drainer.InterruptCheck? || s.drainer.QueuePoll?) {
      FirstIndexPrefix(s.queue, t.queue, i);
      var j :| 0 <= j < FirstIndex(s.queue, i) && !s.clients[s.queue[j]].Erase?;
      assert t.queue[j] == s.queue[j];
    }
  }

  /** A client step that does not erase; with `running_` down no wait can time out any more. */
  lemma ClientKeepsOut(s: State, e: Event, i: nat)
    requires Inv(s) && Enabled(s, e) && ToldStopped(s, i) && !CanStillRun(s, i) && (e.Client? || e.Deadline?)
    requires !(e.Client? && s.clients[e.i].Erase? && e.i in s.queue)
    ensures !CanStillRun(Step(s, e), i) && Step(s, e).log == s.log
  {
    assert CallOk(s, i) && e.i != i;
    ClientFrame(s, e);
    QueueKeepsOut(s, Step(s, e), i);
  }

  lemma ClientFrame(s: State, e: Event)
    requires Shape(s) && Enabled(s, e) && (e.Client? || e.Deadline?)
    requires !(e.Client? && s.clients[e.i].Erase? && e.i in s.queue)
    ensures var t := Step(s, e);
            && t.drainer == s.drainer && t.log == s.log
            && (t.queue == s.queue || t.queue == s.queue + [e.i])
            && (!s.running ==> forall h :: 0 <= h < |s.clients| && !s.clients[h].Erase? ==> !t.clients[h].Erase?)
  {
  }

  lemma StopKeepsOut(s: State, k: nat, i: nat)
    requires Inv(s) && Enabled(s, Stop(k)) && ToldStopped(s, i) && !CanStillRun(s, i)
    ensures !CanStillRun(StopStep(s, k), i) && StopStep(s, k).log == s.log
  {
    QueueKeepsOut(s, StopStep(s, k), i);
  }

  lemma {:induction false} NeverRuns(s: State, i: nat, es: seq<Event>, t: State)
    requires Inv(s) && ToldStopped(s, i) && !CanStillRun(s, i) && Runs(s, es, t)
    ensures Executed(t, i) ==> Executed(s, i)
    decreases |es|
  {
    if es == [] {
    } else {
      StepInv(s, es[0]);
      StepLater(s, es[0], i);
      StepKeepsOut(s, es[0], i);
      NeverRuns(Step(s, es[0]), i, es[1..], t);
    }
  }

  /** Exactly when a command whose client was told "stopped" still runs in some continuation. */
  lemma StoppedCommandRunsIff(s: State, i: nat)
    requires Reachable(s) && Shape(s) && ToldStopped(s, i) && !Executed(s, i)
    ensures RunsLater(s, i) <==> CanStillRun(s, i)
  {
    ReachableInv(s);
    if CanStillRun(s, i) {
      PossibleRun(s, i);
    } else {
      forall es, t | Runs(s, es, t)
        ensures !Executed(t, i)
      {
        NeverRuns(s, i, es, t);
      }
    }
  }

  /** Whether the drainer can execute one more command without looking at `running_` again. */
  function Credit(d: DrainerPc): nat {
    if d.InterruptCheck? || d.QueuePoll? || d.Claimed? || d.Executing? then 1 else 0
  }

  lemma StepCredit(s: State, e: Event)
    requires Shape(s) && !s.running && Enabled(s, e)
    ensures var t := Step(s, e);
            !t.running && s.log <= t.log && |t.log| + Credit(t.drainer) <= |s.log| + Credit(s.drainer)
  {
  }

  /** From the moment `running_` is false at most one more command is executed. */
  lemma {:induction false} AtMostOneMore(s: State, es: seq<Event>, t: State)
    requires Shape(s) && !s.running && Runs(s, es, t)
    ensures s.log <= t.log && |t.log| + Credit(t.drainer) <= |s.log| + Credit(s.drainer)
    decreases |es|
  {
    if es == [] {
    } else {
      StepCredit(s, es[0]);
      AtMostOneMore(Step(s, es[0]), es[1..], t);
    }
  }

  /** The call is past its first look at `running_`, and so is the drainer. */
  lemma BothPassBy(input: string) returns (s: State)
    ensures Reachable(s) && Shape(s) && |s.clients| == 1 && |s.stops| == 2
    ensures s.running && s.queue == [] && s.clients == [Admission] && s.drainer.InterruptCheck?
    ensures s.stops[1].NotCalled? && s.log == [] && s.commands == [NewCommand(input)]
  {
    var s0 := Init([input], 1);
    ReachableInit([input], 1);
    StaysReachable(s0, Drainer);
    var s1 := GoTo(s0, InterruptCheck);
    StaysReachable(s1, Client(0));
    s := At(s1, 0, Admission);
  }

  /** Then `stop` clears the flag and swaps the empty queue out. */
  lemma StopSwaps(s0: State) returns (s: State)
    requires Reachable(s0) && Shape(s0) && |s0.stops| == 2 && s0.stops[1].NotCalled? && s0.queue == []
    ensures Reachable(s) && Shape(s) && !s.running && s.stops == s0.stops[1 := Completing([])]
    ensures s.queue == [] && s.clients == s0.clients && s.commands == s0.commands
    ensures s.drainer == s0.drainer && s.log == s0.log
  {
    StaysReachable(s0, Stop(1));
    var s1 := ClearRunning(s0, 1);
    StaysReachable(s1, Stop(1));
    s := SwapOut(s1, 1);
  }

  /** It has nothing to complete, and returns. */
  lemma StopReturns(s0: State) returns (s: State)
    requires Reachable(s0) && Shape(s0) && |s0.stops| == 2 && s0.stops[1] == Completing([])
    ensures Reachable(s) && Shape(s) && s == s0.(stops := s0.stops[1 := Finished])
  {
    StaysReachable(s0, Stop(1));
    s := s0.(stops := s0.stops[1 := Finished]);
  }

  /** Then the client pushes. */
  lemma PushAfterStop(s0: State) returns (s: State)
    requires Reachable(s0) && Shape(s0) && s0.queue == [] && s0.clients == [Admission]
    ensures Reachable(s) && Shape(s) && s.clients == [Guard] && s.queue == [0]
    ensures s.running == s0.running && s.stops == s0.stops && s.commands == s0.commands
    ensures s.drainer == s0.drainer && s.log == s0.log
  {
    StaysReachable(s0, Client(0));
    s := Admit(s0, 0);
  }

  /** It leaves its wait loop with its command not completed. */
  lemma LeaveAfterStop(s0: State) returns (s: State)
    requires Reachable(s0) && Shape(s0) && !s0.running && s0.clients == [Guard] && !s0.commands[0].completed
    ensures Reachable(s) && Shape(s) && s == s0.(clients := [ReadRunning])
  {
    StaysReachable(s0, Client(0));
    var s1 := At(s0, 0, ReadCompleted);
    StaysReachable(s1, Client(0));
    s := At(s1, 0, ReadRunning);
  }

  /** It is told "stopped". */
  lemma ReturnAfterStop(s0: State) returns (s: State)
    requires Reachable(s0) && Shape(s0) && !s0.running && s0.clients == [ReadRunning]
    ensures Reachable(s) && Shape(s) && ToldStopped(s, 0)
    ensures s == s0.(clients := [Returned(StoppedExit, Reply(false, STOPPED))])
  {
    StaysReachable(s0, Client(0));
    s := Return(s0, 0, StoppedExit, Reply(false, STOPPED));
  }

  /** What it pushed is within reach of the drainer. */
  lemma WillRun(s: State)
    requires Reachable(s) && Shape(s) && ToldStopped(s, 0)
    requires s.drainer.InterruptCheck? && s.queue == [0] && s.log == []
    ensures !Executed(s, 0) && RunsLater(s, 0)
  {
    assert ExecutedIds(s.log) == [];
    FirstIndexIs(s.queue, 0, 0);
    ReachableInv(s);
    PossibleRun(s, 0);
  }

  /**
  A run that ends so: `stop` has returned, a command whose client was told "stopped" is
  still in the queue, and it is still going to run.
  */
  lemma StoppedIsNoPromise(input: string) returns (s: State)
    ensures Reachable(s) && Shape(s) && ToldStopped(s, 0)
    ensures |s.stops| == 2 && s.stops[1].Finished? && s.queue == [0]
    ensures !Executed(s, 0) && RunsLater(s, 0)
  {
    var s0 := BothPassBy(input);
    var s1 := StopSwaps(s0);
    var s2 := StopReturns(s1);
    var s3 := PushAfterStop(s2);
    var s4 := LeaveAfterStop(s3);
    s := ReturnAfterStop(s4);
    WillRun(s);
  }
}
