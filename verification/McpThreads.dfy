/**
The methods of the server as its threads run them: one atomic block after the other, with
any number of steps of the other threads in between.
*/
module McpThreads {
  import opened McpState
  import opened McpInvariant
  import opened McpSafety
  import opened McpServer

  /** What no step ends. A method is told one such property, and keeps it. */
  ghost predicate Stable(keep: State -> bool) {
    forall s, e :: Shape(s) && Enabled(s, e) && keep(s) ==> keep(Step(s, e))
  }

  // ------------------------------------------------------------ interference

  /** What other threads leave alone of what `th` relies on. */
  predicate OwnStays(s: State, t: State, th: Thread)
    requires Shape(s)
  {
    && SameShape(s, t)
    && (!s.running ==> !t.running)
    && match th
       case ClientThread(i) => i < |s.clients| ==> t.clients[i] == s.clients[i]
       case DrainerThread => t.drainer == s.drainer && t.stops[0] == s.stops[0] && t.log == s.log
       case StopThread(k) => 0 < k < |s.stops| ==> t.stops[k] == s.stops[k]
  }

  lemma ClientsKeepOwn(s: State, i: nat, th: Thread)
    requires Shape(s) && Enabled(s, Client(i)) && th != ClientThread(i)
    ensures OwnStays(s, ClientStep(s, i), th)
  {
  }

  lemma DrainerKeepsOwn(s: State, th: Thread)
    requires Shape(s) && Enabled(s, Drainer) && th != DrainerThread
    ensures OwnStays(s, DrainerStep(s), th)
  {
  }

  lemma StopKeepsOwn(s: State, k: nat, th: Thread)
    requires Shape(s) && Enabled(s, Event.Stop(k)) && th != ThreadOf(Event.Stop(k))
    ensures OwnStays(s, StopStep(s, k), th)
  {
  }

  lemma OthersKeepOwn(s: State, e: Event, th: Thread)
    requires Shape(s) && Enabled(s, e) && ThreadOf(e) != th
    ensures OwnStays(s, Step(s, e), th)
  {
    match e
    case Client(i) => ClientsKeepOwn(s, i, th);
    case Drainer => DrainerKeepsOwn(s, th);
    case Stop(k) => StopKeepsOwn(s, k, th);
    case _ =>
  }

  lemma {:induction false} OthersRun(s: State, es: seq<Event>, t: State, th: Thread, keep: State -> bool)
    requires Shape(s) && Runs(s, es, t) && Stable(keep) && keep(s)
    requires forall j :: 0 <= j < |es| ==> ThreadOf(es[j]) != th
    ensures OwnStays(s, t, th) && keep(t)
    decreases |es|
  {
    if es == [] {
    } else {
      OthersKeepOwn(s, es[0], th);
      OthersRun(Step(s, es[0]), es[1..], t, th, keep);
    }
  }

  /**
  The other threads take some steps, or none. A caller knows only this contract, which
  `OthersRun` shows to hold of every such run.
  */
  method Others(server: Server, ghost th: Thread, ghost keep: State -> bool)
    requires server.Valid() && Stable(keep) && keep(server.model)
    modifies server, server.commands
    ensures server.Valid() && keep(server.model) && OwnStays(old(server.model), server.model, th)
  {
  }

  // ------------------------------------------------------------ queue_and_wait

  /** How far a call has got. */
  datatype Status = Going | Replied(reply: Reply)

  /** The call that made `cmd` is at `pc`. */
  ghost predicate CallAt(server: Server, cmd: PendingCommand, keep: State -> bool, pc: ClientPc)
    reads server, server.commands
  {
    && server.Valid() && server.Owns(cmd) && Stable(keep) && keep(server.model)
    && server.model.clients[cmd.id] == pc
  }

  ghost predicate Answers(server: Server, cmd: PendingCommand, keep: State -> bool, reply: Reply)
    reads server, server.commands
  {
    && server.Valid() && server.Owns(cmd) && keep(server.model)
    && server.model.clients[cmd.id].Returned? && server.model.clients[cmd.id].reply == reply
  }

  lemma ClientKeeps(s: State, i: nat, keep: State -> bool)
    requires Shape(s) && Enabled(s, Client(i)) && Stable(keep) && keep(s)
    ensures keep(ClientStep(s, i))
  {
    assert ClientStep(s, i) == Step(s, Client(i));
  }

  lemma CancelKeeps(s: State, i: nat, keep: State -> bool)
    requires Shape(s) && Enabled(s, Deadline(i)) && Stable(keep) && keep(s)
    ensures keep(Cancel(s, i))
  {
    assert Cancel(s, i) == Step(s, Deadline(i));
  }

  /** Up to the push, unless the call ends before it. */
  method EnterQueue(server: Server, cmd: PendingCommand, ghost keep: State -> bool) returns (status: Status)
    requires CallAt(server, cmd, keep, Entry)
    modifies server, server.commands
    ensures match status
            case Going => CallAt(server, cmd, keep, Guard)
            case Replied(r) => Answers(server, cmd, keep, r)
  {
    ClientKeeps(server.model, cmd.id, keep);
    var ok := server.CheckRunning(cmd.id);
    if !ok {
      return Replied(Reply(false, NOT_RUNNING));
    }
    Others(server, ClientThread(cmd.id), keep);
    ClientKeeps(server.model, cmd.id, keep);
    ok := server.Admit(cmd);
    if !ok {
      return Replied(Reply(false, QUEUE_FULL));
    }
    Others(server, ClientThread(cmd.id), keep);
    return Going;
  }

  /** The wait for admission to execution; it ends with its condition or at the deadline. */
  method WaitInQueue(server: Server, cmd: PendingCommand, ghost keep: State -> bool) returns (status: Status)
    requires CallAt(server, cmd, keep, QueueWait)
    modifies server, server.commands
    ensures match status
            case Going => CallAt(server, cmd, keep, Guard)
            case Replied(r) => Answers(server, cmd, keep, r)
  {
    if Woken(server.model, cmd.id) {
      ClientKeeps(server.model, cmd.id, keep);
    } else {
      CancelKeeps(server.model, cmd.id, keep);
    }
    var again := server.WakeOrCancel(cmd, true);
    Others(server, ClientThread(cmd.id), keep);
    if again {
      return Going;
    }
    ClientKeeps(server.model, cmd.id, keep);
    server.EraseOwn(cmd);
    return Replied(Reply(false, TIMED_OUT));
  }

  /** One turn of the wait loop. */
  method WaitTurn(server: Server, cmd: PendingCommand, ghost keep: State -> bool)
    returns (leave: bool, status: Status)
    requires CallAt(server, cmd, keep, Guard)
    modifies server, server.commands
    ensures match status
            case Going => CallAt(server, cmd, keep, if leave then ReadCompleted else Guard)
            case Replied(r) => Answers(server, cmd, keep, r)
  {
    ClientKeeps(server.model, cmd.id, keep);
    var waitForStart;
    leave, waitForStart := server.TestGuard(cmd);
    Others(server, ClientThread(cmd.id), keep);
    status := Going;
    if waitForStart {
      status := WaitInQueue(server, cmd, keep);
    }
  }

  /** What follows the wait loop. */
  method ReadAnswer(server: Server, cmd: PendingCommand, ghost keep: State -> bool) returns (reply: Reply)
    requires CallAt(server, cmd, keep, ReadCompleted)
    modifies server, server.commands
    ensures Answers(server, cmd, keep, reply)
  {
    ClientKeeps(server.model, cmd.id, keep);
    var completed := server.ReadCompleted(cmd);
    Others(server, ClientThread(cmd.id), keep);
    if !completed {
      ClientKeeps(server.model, cmd.id, keep);
      reply := server.ReadRunning(cmd.id);
    } else {
      reply := ReadResult(server, cmd, keep);
    }
  }

  method ReadResult(server: Server, cmd: PendingCommand, ghost keep: State -> bool) returns (reply: Reply)
    requires CallAt(server, cmd, keep, ReadPrefix)
    modifies server, server.commands
    ensures Answers(server, cmd, keep, reply)
  {
    ClientKeeps(server.model, cmd.id, keep);
    var ok := server.ReadPrefix(cmd);
    Others(server, ClientThread(cmd.id), keep);
    ClientKeeps(server.model, cmd.id, keep);
    reply := server.CopyPayload(cmd, ok);
  }

  /** The whole call, as far as it gets in `turns` turns of its wait loop. */
  method Call(server: Server, cmd: PendingCommand, turns: nat, ghost keep: State -> bool) returns (status: Status)
    requires CallAt(server, cmd, keep, Entry)
    modifies server, server.commands
    ensures match status
            case Going => CallAt(server, cmd, keep, Guard)
            case Replied(r) => Answers(server, cmd, keep, r)
  {
    status := EnterQueue(server, cmd, keep);
    var leave, n := false, 0;
    while status.Going? && !leave && n < turns
      invariant match status
                case Going => CallAt(server, cmd, keep, if leave then ReadCompleted else Guard)
                case Replied(r) => Answers(server, cmd, keep, r)
      decreases turns - n
    {
      leave, status := WaitTurn(server, cmd, keep);
      n := n + 1;
    }
    if status.Going? && leave {
      var reply := ReadAnswer(server, cmd, keep);
      status := Replied(reply);
    }
  }

  lemma ReachableIsStable()
    ensures Stable(s => Reachable(s))
  {
    forall s, e | Shape(s) && Enabled(s, e) && Reachable(s)
      ensures Reachable(Step(s, e))
    {
      StaysReachable(s, e);
    }
  }

  /**
  A call of `queue_and_wait` among any number of other threads: when it returns, its reply
  says what became of its command.
  */
  method QueueAndWait(server: Server, cmd: PendingCommand, turns: nat) returns (status: Status)
    requires server.Valid() && server.Owns(cmd)
    requires Reachable(server.model) && server.model.clients[cmd.id].Entry?
    modifies server, server.commands
    ensures server.Valid() && Reachable(server.model) && cmd.id < |server.model.clients|
    ensures status.Going? ==> server.model.clients[cmd.id].Guard?
    ensures status.Replied? ==> server.model.clients[cmd.id].Returned?
    ensures status.Replied? ==> RepliesTruly(server.model, cmd.id, cmd.input, status.reply)
  {
    ReachableIsStable();
    status := Call(server, cmd, turns, s => Reachable(s));
    if status.Replied? {
      ReplyIsTrue(server.model, cmd.id);
    }
  }

  // ------------------------------------------------------------ stop

  ghost function Stopper(k: nat): Thread {
    ThreadOf(Event.Stop(k))
  }

  /** The `k`-th call of `stop` is at `pc`. */
  ghost predicate StopAt(server: Server, k: nat, keep: State -> bool, pc: StopPc)
    reads server, server.commands
  {
    && server.Valid() && Stable(keep) && keep(server.model)
    && k < |server.model.stops| && server.model.stops[k] == pc
    && (k == 0 ==> server.model.drainer.Stopping?)
  }

  lemma StopKeeps(s: State, k: nat, keep: State -> bool)
    requires Shape(s) && Enabled(s, Event.Stop(k)) && Stable(keep) && keep(s)
    ensures keep(StopStep(s, k))
  {
    assert StopStep(s, k) == Step(s, Event.Stop(k));
  }

  method Stop(server: Server, ghost k: nat, ghost keep: State -> bool)
    requires StopAt(server, k, keep, NotCalled)
    modifies server, server.commands
    ensures StopAt(server, k, keep, Finished) && !server.running
    ensures k == 0 ==> server.model.log == old(server.model.log)
  {
    StopKeeps(server.model, k, keep);
    server.ClearRunning(k);
    Others(server, Stopper(k), keep);
    CompletePending(server, k, keep);
  }

  method CompletePending(server: Server, ghost k: nat, ghost keep: State -> bool)
    requires StopAt(server, k, keep, Swapping) && !server.running
    modifies server, server.commands
    ensures StopAt(server, k, keep, Finished) && !server.running
    ensures k == 0 ==> server.model.log == old(server.model.log)
  {
    StopKeeps(server.model, k, keep);
    var list := server.SwapOut(k);
    Others(server, Stopper(k), keep);
    ghost var ids := server.model.stops[k].rest;
    while list != []
      invariant StopAt(server, k, keep, Completing(ids)) && server.Queues(list, ids) && !server.running
      invariant k == 0 ==> server.model.log == old(server.model.log)
      decreases |list|
    {
      list, ids := CompleteOne(server, k, list, ids, keep);
    }
    StopKeeps(server.model, k, keep);
    list := server.CompleteFront(k, list);
  }

  method CompleteOne(
    server: Server, ghost k: nat, list: seq<PendingCommand>, ghost ids: seq<nat>, ghost keep: State -> bool)
    returns (rest: seq<PendingCommand>, ghost left: seq<nat>)
    requires StopAt(server, k, keep, Completing(ids)) && server.Queues(list, ids) && !server.running && list != []
    modifies server, server.commands
    ensures StopAt(server, k, keep, Completing(left)) && server.Queues(rest, left) && !server.running
    ensures |rest| < |list| && (k == 0 ==> server.model.log == old(server.model.log))
  {
    StopKeeps(server.model, k, keep);
    rest := server.CompleteFront(k, list);
    left := server.model.stops[k].rest;
    Others(server, Stopper(k), keep);
  }

  // ------------------------------------------------------------ run_until_stopped

  /** The drainer is at `pc`, and has not called `stop`. */
  ghost predicate DrainerAt(server: Server, keep: State -> bool, pc: DrainerPc)
    reads server, server.commands
  {
    && server.Valid() && Stable(keep) && keep(server.model)
    && server.model.drainer == pc && server.model.stops[0].NotCalled?
  }

  lemma DrainerKeeps(s: State, keep: State -> bool)
    requires Shape(s) && Enabled(s, Drainer) && Stable(keep) && keep(s)
    ensures keep(DrainerStep(s))
  {
    assert DrainerStep(s) == Step(s, Drainer);
  }

  lemma InterruptKeeps(s: State, keep: State -> bool)
    requires Shape(s) && s.drainer.InterruptCheck? && Stable(keep) && keep(s)
    ensures keep(GoTo(s, Stopping))
  {
    assert GoTo(s, Stopping) == Step(s, Interrupt);
  }

  lemma CallbackKeeps(s: State, o: Outcome, keep: State -> bool)
    requires Shape(s) && s.drainer.Executing? && Stable(keep) && keep(s)
    ensures keep(Execute(s, o))
  {
    assert Execute(s, o) == Step(s, Callback(o));
  }

  /** At most one more execution, and its outcome is what the callback makes of the command's input. */
  predicate Executes(a: seq<Execution>, b: seq<Execution>, callback: string -> Outcome) {
    b == a || (|b| == |a| + 1 && a <= b && b[|a|].outcome == callback(b[|a|].input))
  }

  predicate IsCall(x: Execution, callback: (nat, string) -> Outcome, turn: nat) {
    x.outcome == callback(turn, x.input)
  }

  ghost predicate IsCallIn(x: Execution, callback: (nat, string) -> Outcome, turns: nat) {
    exists k: nat :: k < turns && IsCall(x, callback, k)
  }

  /** Every further execution is one of the callback's, in one of these turns. */
  ghost predicate ExecutesIn(a: seq<Execution>, b: seq<Execution>, callback: (nat, string) -> Outcome, turns: nat) {
    a <= b && forall n :: |a| <= n < |b| ==> IsCallIn(b[n], callback, turns)
  }

  lemma OneTurnMore(
    a: seq<Execution>, b: seq<Execution>, c: seq<Execution>, callback: (nat, string) -> Outcome, turn: nat)
    requires ExecutesIn(a, b, callback, turn) && Executes(b, c, input => callback(turn, input))
    ensures ExecutesIn(a, c, callback, turn + 1)
  {
    forall n | |a| <= n < |c|
      ensures IsCallIn(c[n], callback, turn + 1)
    {
      if n < |b| {
        assert c[n] == b[n];
        assert IsCallIn(b[n], callback, turn);
      } else {
        assert IsCall(c[n], callback, turn);
      }
    }
  }

  /** What becomes of a popped command. */
  method Serve(server: Server, cmd: PendingCommand, callback: string -> Outcome, ghost keep: State -> bool)
    requires server.Owns(cmd) && DrainerAt(server, keep, Claimed(cmd.id))
    modifies server, server.commands
    ensures DrainerAt(server, keep, LoopHead) && Executes(old(server.model.log), server.model.log, callback)
  {
    DrainerKeeps(server.model, keep);
    var shouldExecute := server.Claim(cmd);
    Others(server, DrainerThread, keep);
    if shouldExecute {
      RunCommand(server, cmd, callback, keep);
    }
  }

  method RunCommand(server: Server, cmd: PendingCommand, callback: string -> Outcome, ghost keep: State -> bool)
    requires server.Owns(cmd) && DrainerAt(server, keep, Executing(cmd.id))
    modifies server, server.commands
    ensures DrainerAt(server, keep, LoopHead) && Executes(old(server.model.log), server.model.log, callback)
  {
    CallbackKeeps(server.model, callback(cmd.input), keep);
    var result := server.Execute(cmd, callback(cmd.input));
    Others(server, DrainerThread, keep);
    DrainerKeeps(server.model, keep);
    server.Store(cmd, result);
    Others(server, DrainerThread, keep);
  }

  method PollAndServe(server: Server, callback: string -> Outcome, ghost keep: State -> bool)
    requires DrainerAt(server, keep, QueuePoll)
    modifies server, server.commands
    ensures DrainerAt(server, keep, LoopHead) && Executes(old(server.model.log), server.model.log, callback)
  {
    DrainerKeeps(server.model, keep);
    var cmd := server.PopFront();
    Others(server, DrainerThread, keep);
    if cmd != null {
      Serve(server, cmd, callback, keep);
    }
  }

  /** The interrupt check has fired. */
  method StopAndLeave(server: Server, ghost keep: State -> bool)
    requires DrainerAt(server, keep, Stopping)
    modifies server, server.commands
    ensures server.Valid() && keep(server.model) && server.model.drainer.Exited? && !server.running
    ensures server.model.log == old(server.model.log)
  {
    Stop(server, 0, keep);
    DrainerKeeps(server.model, keep);
    server.LeaveLoop();
  }

  /** One turn of the drainer's loop; `left` when that was the last. */
  method DrainerTurn(server: Server, interrupted: bool, callback: string -> Outcome, ghost keep: State -> bool)
    returns (left: bool)
    requires DrainerAt(server, keep, LoopHead)
    modifies server, server.commands
    ensures if left then server.Valid() && keep(server.model) && server.model.drainer.Exited? && !server.running
            else DrainerAt(server, keep, LoopHead)
    ensures interrupted ==> left
    ensures Executes(old(server.model.log), server.model.log, callback)
  {
    DrainerKeeps(server.model, keep);
    var go := server.DrainerLoopHead();
    if !go {
      return true;
    }
    Others(server, DrainerThread, keep);
    left := interrupted;
    if interrupted {
      InterruptKeeps(server.model, keep);
      server.CheckInterrupt(true);
      StopAndLeave(server, keep);
    } else {
      DrainerKeeps(server.model, keep);
      server.CheckInterrupt(false);
      Others(server, DrainerThread, keep);
      PollAndServe(server, callback, keep);
    }
  }

  /** `turns` turns of the loop, or fewer if it is left. */
  method DrainerLoop(
    server: Server, interrupted: nat -> bool, callback: (nat, string) -> Outcome, turns: nat,
    ghost keep: State -> bool) returns (left: bool)
    requires DrainerAt(server, keep, LoopHead)
    modifies server, server.commands
    ensures if left then server.Valid() && keep(server.model) && server.model.drainer.Exited? && !server.running
            else DrainerAt(server, keep, LoopHead)
    ensures (exists n :: 0 <= n < turns && interrupted(n)) ==> left
    ensures ExecutesIn(old(server.model.log), server.model.log, callback, turns)
  {
    left := false;
    var n := 0;
    while !left && n < turns
      invariant if left then server.Valid() && keep(server.model) && server.model.drainer.Exited? && !server.running
                else DrainerAt(server, keep, LoopHead)
      invariant ExecutesIn(old(server.model.log), server.model.log, callback, n)
      invariant n <= turns && (left || forall m :: 0 <= m < n ==> !interrupted(m))
      decreases turns - n
    {
      ghost var log := server.model.log;
      left := DrainerTurn(server, interrupted(n), input => callback(n, input), keep);
      OneTurnMore(old(server.model.log), log, server.model.log, callback, n);
      n := n + 1;
    }
  }

  /**
  The drainer among any number of other threads, for `turns` turns of its loop: it leaves
  the loop only with `running_` down, and at the latest when the interrupt check fires. What
  it executes is the callback, on the input of the command.
  */
  method RunUntilStopped(
    server: Server, interrupted: nat -> bool, callback: (nat, string) -> Outcome, turns: nat) returns (left: bool)
    requires server.Valid() && Reachable(server.model)
    requires server.model.drainer.LoopHead? && server.model.stops[0].NotCalled?
    modifies server, server.commands
    ensures server.Valid() && Reachable(server.model)
    ensures if left then server.model.drainer.Exited? && !server.running else server.model.drainer.LoopHead?
    ensures (exists n :: 0 <= n < turns && interrupted(n)) ==> left
    ensures ExecutesIn(old(server.model.log), server.model.log, callback, turns)
  {
    ReachableIsStable();
    left := DrainerLoop(server, interrupted, callback, turns, s => Reachable(s));
  }
}
