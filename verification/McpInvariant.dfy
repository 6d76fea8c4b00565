/**
The inductive invariant of the command queue. It is a conjunction of small predicates,
each over the fields it needs, so that a step which leaves those fields alone keeps it.
*/
module McpInvariant {
  import opened Sequences
  import opened McpState

  predicate Holds(d: DrainerPc, i: nat) {
    (d.Claimed? || d.Executing? || d.Storing?) && d.id == i
  }

  /** The drainer has started `i` and not yet completed it. */
  predicate Busy(d: DrainerPc, i: nat) {
    (d.Executing? || d.Storing?) && d.id == i
  }

  /** Some execution of `i` is logged, and `text` is its result. */
  ghost predicate Answered(log: seq<Execution>, i: nat, text: string) {
    exists n :: 0 <= n < |log| && log[n].id == i && ResultText(log[n].outcome) == text
  }

  /** The call has not put its command in the queue, or gave up before doing so. */
  predicate NotAdmitted(pc: ClientPc) {
    pc.Entry? || pc.Admission? || (pc.Returned? && (pc.exit.NotRunningExit? || pc.exit.FullExit?))
  }

  predicate GaveUp(pc: ClientPc) {
    pc.Erase? || (pc.Returned? && pc.exit.TimeoutExit?)
  }

  predicate ReplyOk(pc: ClientPc, c: Command, running: bool)
    requires pc.Returned?
  {
    match pc.exit
    case NotRunningExit => pc.reply == Reply(false, NOT_RUNNING)
    case FullExit => pc.reply == Reply(false, QUEUE_FULL)
    case TimeoutExit => pc.reply == Reply(false, TIMED_OUT)
    case StoppedExit => pc.reply == Reply(false, STOPPED) && !running
    case FallbackExit => false
    case AnswerExit => c.completed && pc.reply == Reply(!IsError(c.result), c.result)
  }

  /** What the command's flags say about each other, its place, and the drainer. */
  ghost predicate CommandOk(i: nat, c: Command, pl: Place, d: DrainerPc, running: bool, log: seq<Execution>) {
    && !(c.started && c.canceled)
    && (pl.Outside? ==> c == NewCommand(c.input))
    && (c.completed <==> pl.Done?)
    && (!c.completed ==> c.result == "")
    && (c.started && !c.completed <==> Busy(d, i))
    && (c.started && c.completed ==> Answered(log, i, c.result))
    && (!c.started && c.completed ==> (c.result == STOPPED && !running) || (c.result == "" && c.canceled))
  }

  /** What the call may rely on at each point of `queue_and_wait`. */
  predicate ClientOk(pc: ClientPc, c: Command, pl: Place, running: bool) {
    && (NotAdmitted(pc) <==> pl.Outside?)
    && (c.canceled <==> GaveUp(pc))
    && (pl.Removed? ==> c.canceled && !c.started && pc.Returned?)
    && (pc.Returned? && c.canceled ==> !pl.Queued?)
    && (pc.ReadCompleted? ==> c.completed || !running)
    && (pc.ReadRunning? ==> !running)
    && (pc.ReadPrefix? ==> c.completed)
    && (pc.ReadPayload? ==> c.completed && pc.ok == !IsError(c.result))
    && (pc.Returned? ==> ReplyOk(pc, c, running))
  }

  ghost predicate CallOk(s: State, i: nat)
    requires Shape(s) && i < |s.clients|
  {
    && CommandOk(i, s.commands[i], s.places[i], s.drainer, s.running, s.log)
    && ClientOk(s.clients[i], s.commands[i], s.places[i], s.running)
  }

  ghost predicate QueueOk(queue: seq<nat>, places: seq<Place>) {
    && |queue| <= MAX_QUEUE
    && NoDup(queue)
    && forall i :: 0 <= i < |places| ==> (i in queue <==> places[i].Queued?)
  }

  predicate HandOk(d: DrainerPc, places: seq<Place>) {
    forall i :: 0 <= i < |places| ==> (Holds(d, i) <==> places[i].InHand?)
  }

  ghost predicate ListOk(p: StopPc, k: nat, places: seq<Place>) {
    && (p.Completing? ==> NoDup(p.rest))
    && forall i :: 0 <= i < |places| ==> (p.Completing? && i in p.rest <==> places[i] == InList(k))
  }

  ghost predicate ListsOk(stops: seq<StopPc>, places: seq<Place>, running: bool) {
    && (forall k :: 0 <= k < |stops| ==> ListOk(stops[k], k, places) && (running ==> stops[k].NotCalled?))
    && (forall i :: 0 <= i < |places| && places[i].InList? ==> places[i].k < |stops|)
  }

  ghost predicate AdmittedOk(admitted: seq<nat>, places: seq<Place>) {
    && NoDup(admitted)
    && (forall i :: 0 <= i < |places| ==> (i in admitted <==> !places[i].Outside?))
  }

  ghost predicate LogOk(log: seq<Execution>, commands: seq<Command>, d: DrainerPc) {
    && (forall m, n :: 0 <= m < n < |log| ==> log[m].id != log[n].id)
    && (forall n :: 0 <= n < |log| ==>
          && log[n].id < |commands|
          && commands[log[n].id].started
          && commands[log[n].id].input == log[n].input
          && !(d.Executing? && d.id == log[n].id))
    && (d.Storing? ==> Answered(log, d.id, d.text))
  }

  function ExecutedIds(log: seq<Execution>): (r: seq<nat>)
    ensures |r| == |log|
    ensures forall n :: 0 <= n < |r| ==> r[n] == log[n].id
  {
    seq(|log|, n requires 0 <= n < |log| => log[n].id)
  }

  /** The commands whose turn to execute is over. */
  ghost predicate FifoOk(admitted: seq<nat>, popped: seq<nat>, queue: seq<nat>, log: seq<Execution>, d: DrainerPc) {
    && Subsequence(popped + queue, admitted)
    && (if d.Claimed? || d.Executing? then
          popped != [] && popped[|popped| - 1] == d.id && Subsequence(ExecutedIds(log), popped[..|popped| - 1])
        else Subsequence(ExecutedIds(log), popped))
  }

  ghost predicate Inv(s: State) {
    && Shape(s)
    && (forall i :: 0 <= i < |s.clients| ==> CallOk(s, i))
    && QueueOk(s.queue, s.places)
    && HandOk(s.drainer, s.places)
    && ListsOk(s.stops, s.places, s.running)
    && AdmittedOk(s.admitted, s.places)
    && LogOk(s.log, s.commands, s.drainer)
    && FifoOk(s.admitted, s.popped, s.queue, s.log, s.drainer)
  }

  lemma InitInv(inputs: seq<string>, stopCalls: nat)
    ensures Inv(Init(inputs, stopCalls))
  {
  }

  /** A call that a step does not touch stays as it was, whatever the step adds to the log. */
  lemma FrameCall(s: State, t: State, i: nat)
    requires Shape(s) && Shape(t) && i < |s.clients| == |t.clients| && CallOk(s, i)
    requires t.clients[i] == s.clients[i] && t.commands[i] == s.commands[i] && t.places[i] == s.places[i]
    requires Busy(t.drainer, i) == Busy(s.drainer, i)
    requires t.running ==> s.running
    requires s.log <= t.log
    ensures CallOk(t, i)
  {
    if Answered(s.log, i, s.commands[i].result) {
      AnsweredGrows(s.log, t.log, i, s.commands[i].result);
    }
  }

  lemma AnsweredGrows(a: seq<Execution>, b: seq<Execution>, i: nat, text: string)
    requires a <= b && Answered(a, i, text)
    ensures Answered(b, i, text)
  {
    var n :| 0 <= n < |a| && a[n].id == i && ResultText(a[n].outcome) == text;
    assert b[n] == a[n];
  }

  lemma FrameOthers(s: State, t: State, i: nat)
    requires Inv(s) && Shape(t) && i < |s.clients| == |t.clients|
    requires forall j :: 0 <= j < |s.clients| && j != i ==>
      && t.clients[j] == s.clients[j] && t.commands[j] == s.commands[j] && t.places[j] == s.places[j]
      && Busy(t.drainer, j) == Busy(s.drainer, j)
    requires t.running ==> s.running
    requires s.log <= t.log
    ensures forall j :: 0 <= j < |s.clients| && j != i ==> CallOk(t, j)
  {
    forall j | 0 <= j < |s.clients| && j != i
      ensures CallOk(t, j)
    {
      FrameCall(s, t, j);
    }
  }

  // ------------------------------------------------------------ clients

  /** A client may move alone to any point whose demands on its command are met. */
  lemma MoveClientInv(s: State, i: nat, pc: ClientPc)
    requires Inv(s) && i < |s.clients|
    requires ClientOk(pc, s.commands[i], s.places[i], s.running)
    ensures Inv(At(s, i, pc))
  {
    FrameOthers(s, At(s, i, pc), i);
    assert CallOk(s, i);
  }

  lemma ClientReadOk(s: State, i: nat)
    requires Shape(s) && Enabled(s, Client(i)) && CallOk(s, i)
    requires !s.clients[i].Admission? && !s.clients[i].Erase?
    ensures var pc := ClientStep(s, i).clients[i];
            ClientStep(s, i) == At(s, i, pc) && ClientOk(pc, s.commands[i], s.places[i], s.running)
  {
  }

  /** Steps of a client that write no shared state. */
  lemma ClientReadInv(s: State, i: nat)
    requires Inv(s) && Enabled(s, Client(i))
    requires !s.clients[i].Admission? && !s.clients[i].Erase?
    ensures Inv(ClientStep(s, i))
  {
    ClientReadOk(s, i);
    MoveClientInv(s, i, ClientStep(s, i).clients[i]);
  }

  lemma AdmitInv(s: State, i: nat)
    requires Inv(s) && i < |s.clients| && s.clients[i].Admission?
    ensures Inv(Admit(s, i))
  {
    assert CallOk(s, i);
    if |s.queue| < MAX_QUEUE {
      PushInv(s, i);
    } else {
      MoveClientInv(s, i, Returned(FullExit, Reply(false, QUEUE_FULL)));
    }
  }

  lemma PushInv(s: State, i: nat)
    requires Inv(s) && i < |s.clients| && s.clients[i].Admission? && |s.queue| < MAX_QUEUE
    ensures Inv(Admit(s, i))
  {
    var t := Admit(s, i);
    assert CallOk(s, i);
    assert CallOk(t, i);
    FrameOthers(s, t, i);
    PushPlaces(s, i);
    PushFifo(s, i);
  }

  lemma PushPlaces(s: State, i: nat)
    requires Shape(s) && i < |s.places| && s.places[i].Outside? && |s.queue| < MAX_QUEUE
    requires QueueOk(s.queue, s.places) && AdmittedOk(s.admitted, s.places)
    ensures QueueOk(s.queue + [i], s.places[i := Queued])
    ensures AdmittedOk(s.admitted + [i], s.places[i := Queued])
  {
  }

  lemma PushFifo(s: State, i: nat)
    requires FifoOk(s.admitted, s.popped, s.queue, s.log, s.drainer)
    ensures FifoOk(s.admitted + [i], s.popped, s.queue + [i], s.log, s.drainer)
  {
    SubsequenceAppend(s.popped + s.queue, s.admitted, i);
    assert s.popped + (s.queue + [i]) == s.popped + s.queue + [i];
  }

  lemma CancelInv(s: State, i: nat)
    requires Inv(s) && Enabled(s, Deadline(i))
    ensures Inv(Cancel(s, i))
  {
    var t := Cancel(s, i);
    FrameOthers(s, t, i);
    assert CallOk(s, i);
  }

  lemma WithoutMembers(q: seq<nat>, x: nat)
    requires NoDup(q) && x in q
    ensures NoDup(Without(q, x)) && |Without(q, x)| == |q| - 1
    ensures forall y :: y in Without(q, x) <==> y in q && y != x
  {
    var k := FirstIndex(q, x);
    var r := Without(q, x);
    forall y
      ensures y in r <==> y in q && y != x
    {
      if y in q && y != x {
        var j :| 0 <= j < |q| && q[j] == y;
        assert y == if j < k then r[j] else r[j - 1];
      }
    }
  }

  lemma WithoutKeepsOrder(popped: seq<nat>, q: seq<nat>, admitted: seq<nat>, x: nat)
    requires x in q && Subsequence(popped + q, admitted)
    ensures Subsequence(popped + Without(q, x), admitted)
  {
    var k := FirstIndex(q, x);
    assert q == q[..k] + [x] + q[k + 1..];
    SubsequenceDeleteBetween(popped, q[..k], x, q[k + 1..], admitted);
  }

  lemma EraseInv(s: State, i: nat)
    requires Inv(s) && i < |s.clients| && s.clients[i].Erase?
    ensures Inv(EraseOwn(s, i))
  {
    assert CallOk(s, i);
    if i in s.queue {
      RemoveInv(s, i);
    } else {
      MoveClientInv(s, i, Returned(TimeoutExit, Reply(false, TIMED_OUT)));
    }
  }

  lemma RemoveInv(s: State, i: nat)
    requires Inv(s) && i < |s.clients| && s.clients[i].Erase? && i in s.queue
    ensures Inv(EraseOwn(s, i))
  {
    var t := EraseOwn(s, i);
    assert CallOk(s, i);
    assert CallOk(t, i);
    FrameOthers(s, t, i);
    WithoutMembers(s.queue, i);
    WithoutKeepsOrder(s.popped, s.queue, s.admitted, i);
  }

  // ------------------------------------------------------------ drainer

  /** Steps of the drainer that touch no command. */
  lemma DrainerMoveInv(s: State, t: State)
    requires Inv(s) && Shape(t) && t == GoTo(s, t.drainer)
    requires s.drainer.LoopHead? || s.drainer.InterruptCheck? || s.drainer.QueuePoll? || s.drainer.Stopping?
    requires !t.drainer.Claimed? && !t.drainer.Executing? && !t.drainer.Storing?
    ensures Inv(t)
  {
    forall j | 0 <= j < |s.clients|
      ensures CallOk(t, j)
    {
      FrameCall(s, t, j);
    }
  }

  lemma PollInv(s: State)
    requires Inv(s) && s.drainer.QueuePoll?
    ensures Inv(Poll(s))
  {
    var t := Poll(s);
    if s.queue == [] {
      DrainerMoveInv(s, t);
    } else {
      var c := s.queue[0];
      FrameOthers(s, t, c);
      assert CallOk(s, c);
      PopPlaces(s);
      PopFifo(s);
    }
  }

  lemma PopPlaces(s: State)
    requires Shape(s) && s.queue != [] && QueueOk(s.queue, s.places)
    requires s.drainer.QueuePoll? && HandOk(s.drainer, s.places)
    ensures var places := s.places[s.queue[0] := InHand];
            QueueOk(s.queue[1..], places) && HandOk(Claimed(s.queue[0]), places)
  {
    assert s.queue == [s.queue[0]] + s.queue[1..];
  }

  lemma PopFifo(s: State)
    requires s.queue != [] && s.drainer.QueuePoll? && FifoOk(s.admitted, s.popped, s.queue, s.log, s.drainer)
    ensures FifoOk(s.admitted, s.popped + [s.queue[0]], s.queue[1..], s.log, Claimed(s.queue[0]))
  {
    assert s.popped + [s.queue[0]] + s.queue[1..] == s.popped + s.queue;
    assert (s.popped + [s.queue[0]])[..|s.popped|] == s.popped;
  }

  lemma ClaimStartInv(s: State)
    requires Inv(s) && s.drainer.Claimed? && !s.commands[s.drainer.id].canceled
    ensures Inv(Claim(s))
  {
    var c := s.drainer.id;
    assert CallOk(s, c);
    FrameOthers(s, Claim(s), c);
  }

  lemma ClaimSkipInv(s: State)
    requires Inv(s) && s.drainer.Claimed? && s.commands[s.drainer.id].canceled
    ensures Inv(Claim(s))
  {
    var c := s.drainer.id;
    assert CallOk(s, c);
    FrameOthers(s, Claim(s), c);
    SkipFifo(s);
  }

  lemma SkipFifo(s: State)
    requires s.drainer.Claimed? && FifoOk(s.admitted, s.popped, s.queue, s.log, s.drainer)
    ensures FifoOk(s.admitted, s.popped, s.queue, s.log, LoopHead)
  {
    var p := s.popped[..|s.popped| - 1];
    SubsequenceAppend(ExecutedIds(s.log), p, s.drainer.id);
    assert s.popped == p + [s.drainer.id];
  }

  lemma ExecuteInv(s: State, o: Outcome)
    requires Inv(s) && s.drainer.Executing?
    ensures Inv(Execute(s, o))
  {
    var c := s.drainer.id;
    var t := Execute(s, o);
    FrameOthers(s, t, c);
    assert CallOk(s, c);
    assert t.log[|s.log|] == Execution(c, s.commands[c].input, o);
    assert Answered(t.log, c, ResultText(o));
    ExecuteKeepsOrder(s, t.log);
  }

  lemma ExecuteKeepsOrder(s: State, log: seq<Execution>)
    requires s.drainer.Executing? && FifoOk(s.admitted, s.popped, s.queue, s.log, s.drainer)
    requires |log| == |s.log| + 1 && s.log <= log && log[|s.log|].id == s.drainer.id
    ensures Subsequence(ExecutedIds(log), s.popped)
  {
    var c, p := s.drainer.id, s.popped[..|s.popped| - 1];
    SubsequenceAppend(ExecutedIds(s.log), p, c);
    assert ExecutedIds(log) == ExecutedIds(s.log) + [c];
    assert s.popped == p + [c];
  }

  lemma StoreInv(s: State)
    requires Inv(s) && s.drainer.Storing?
    ensures Inv(Store(s))
  {
    var c := s.drainer.id;
    var t := Store(s);
    FrameOthers(s, t, c);
    assert CallOk(s, c);
  }

  // ------------------------------------------------------------ stop

  lemma ClearRunningInv(s: State, k: nat)
    requires Inv(s) && k < |s.stops| && s.stops[k].NotCalled?
    ensures Inv(ClearRunning(s, k))
  {
    var t := ClearRunning(s, k);
    forall j | 0 <= j < |s.clients|
      ensures CallOk(t, j)
    {
      FrameCall(s, t, j);
    }
  }

  lemma SwapOutInv(s: State, k: nat)
    requires Inv(s) && k < |s.stops| && s.stops[k].Swapping?
    ensures Inv(SwapOut(s, k))
  {
    var t := SwapOut(s, k);
    forall j | 0 <= j < |s.clients|
      ensures CallOk(t, j)
    {
      assert CallOk(s, j);
      if j !in s.queue { FrameCall(s, t, j); }
    }
    forall m | 0 <= m < |t.stops|
      ensures ListOk(t.stops[m], m, t.places)
    {
      assert ListOk(s.stops[m], m, s.places);
    }
    SubsequenceTakePrefix(s.popped, s.queue, s.admitted);
    assert t.popped + t.queue == s.popped;
  }

  lemma CompleteHeadInv(s: State, k: nat)
    requires Inv(s) && k < |s.stops| && s.stops[k].Completing? && s.stops[k].rest != []
    ensures Inv(CompleteHead(s, k))
  {
    var c := s.stops[k].rest[0];
    var t := CompleteHead(s, k);
    FrameOthers(s, t, c);
    assert CallOk(s, c);
    assert ListOk(s.stops[k], k, s.places);
    forall m | 0 <= m < |t.stops|
      ensures ListOk(t.stops[m], m, t.places)
    {
      assert ListOk(s.stops[m], m, s.places);
    }
  }

  lemma StopFinishInv(s: State, k: nat)
    requires Inv(s) && k < |s.stops| && s.stops[k] == Completing([])
    ensures Inv(s.(stops := s.stops[k := Finished]))
  {
    var t := s.(stops := s.stops[k := Finished]);
    forall j | 0 <= j < |s.clients|
      ensures CallOk(t, j)
    {
      FrameCall(s, t, j);
    }
  }

  // ------------------------------------------------------------ every step, every run

  lemma StepInv(s: State, e: Event)
    requires Inv(s) && Enabled(s, e)
    ensures Inv(Step(s, e))
  {
    match e
    case Client(i) =>
      if s.clients[i].Admission? { AdmitInv(s, i); }
      else if s.clients[i].Erase? { EraseInv(s, i); }
      else { ClientReadInv(s, i); }
    case Deadline(i) => CancelInv(s, i);
    case Drainer =>
      if s.drainer.QueuePoll? { PollInv(s); }
      else if s.drainer.Claimed? {
        if s.commands[s.drainer.id].canceled { ClaimSkipInv(s); } else { ClaimStartInv(s); }
      }
      else if s.drainer.Storing? { StoreInv(s); }
      else { DrainerMoveInv(s, DrainerStep(s)); }
    case Interrupt => DrainerMoveInv(s, GoTo(s, Stopping));
    case Callback(o) => ExecuteInv(s, o);
    case Stop(k) =>
      if s.stops[k].NotCalled? { ClearRunningInv(s, k); }
      else if s.stops[k].Swapping? { SwapOutInv(s, k); }
      else if s.stops[k].rest == [] { StopFinishInv(s, k); }
      else { CompleteHeadInv(s, k); }
  }

  lemma {:induction false} RunInv(s: State, es: seq<Event>, t: State)
    requires Inv(s) && Runs(s, es, t)
    ensures Inv(t)
    decreases |es|
  {
    if es == [] {
    } else {
      StepInv(s, es[0]);
      RunInv(Step(s, es[0]), es[1..], t);
    }
  }

  lemma ReachableInv(s: State)
    requires Reachable(s)
    ensures Inv(s)
  {
    var inputs, stopCalls, es :| Runs(Init(inputs, stopCalls), es, s);
    InitInv(inputs, stopCalls);
    RunInv(Init(inputs, stopCalls), es, s);
  }

  lemma {:induction false} RunsAppend(s: State, es: seq<Event>, t: State, e: Event)
    requires Shape(s) && Runs(s, es, t) && Shape(t) && Enabled(t, e)
    ensures Runs(s, es + [e], Step(t, e))
    decreases |es|
  {
    if es == [] {
      assert Runs(Step(t, e), [], Step(t, e));
      assert ([e] + [])[1..] == [];
    } else {
      RunsAppend(Step(s, es[0]), es[1..], t, e);
      assert (es + [e])[1..] == es[1..] + [e];
    }
  }

  lemma StaysReachable(s: State, e: Event)
    requires Reachable(s) && Shape(s) && Enabled(s, e)
    ensures Reachable(Step(s, e))
  {
    var inputs, stopCalls, es :| Runs(Init(inputs, stopCalls), es, s);
    RunsAppend(Init(inputs, stopCalls), es, s, e);
  }

  lemma ReachableInit(inputs: seq<string>, stopCalls: nat)
    ensures Reachable(Init(inputs, stopCalls)) && Inv(Init(inputs, stopCalls))
  {
    assert Runs(Init(inputs, stopCalls), [], Init(inputs, stopCalls));
    InitInv(inputs, stopCalls);
  }
}
