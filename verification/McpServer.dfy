/**
The server object itself. Each method is one critical section of `queue_and_wait`,
`run_until_stopped` or `stop`, or one of their unlocked reads, on the server's mutable
fields; its contract says that it performs the step of the transition system which the
calling thread is about to take. `McpThreads` puts them together into the three methods,
with the other threads at work between any two of them.
*/
module McpServer {
  import opened McpState
  import opened Sequences

  class PendingCommand {
    ghost const id: nat
    const input: string
    var result: string
    var started: bool
    var canceled: bool
    var completed: bool

    constructor (ghost id: nat, input: string)
      ensures this.id == id && Value() == NewCommand(input)
    {
      this.id, this.input := id, input;
      result, started, canceled, completed := "", false, false, false;
    }

    function Value(): Command
      reads this
    {
      Command(input, result, started, canceled, completed)
    }
  }

  predicate IsFirst(q: seq<nat>, x: nat, it: nat) {
    it <= |q| && (it < |q| ==> q[it] == x) && forall j :: 0 <= j < it ==> q[j] != x
  }

  function SkipAt(q: seq<nat>, it: nat): seq<nat>
    requires it <= |q|
  {
    if it < |q| then q[..it] + q[it + 1..] else q
  }

  lemma ErasesAt(s: State, i: nat, it: nat)
    requires Shape(s) && i < |s.clients| && s.clients[i].Erase? && IsFirst(s.queue, i, it)
    ensures var t := ClientStep(s, i);
            t.queue == SkipAt(s.queue, it) && t.commands == s.commands && t.running == s.running
  {
    FirstIndexIs(s.queue, i, it);
  }

  class Server {
    var running: bool
    var pending: seq<PendingCommand>
    /** The command of each call, and the state of the system this object is in. */
    ghost const commands: seq<PendingCommand>
    ghost var model: State

    ghost predicate Valid()
      reads this, commands
    {
      && Shape(model)
      && |commands| == |model.clients|
      && (forall i :: 0 <= i < |commands| ==> commands[i].id == i && commands[i].Value() == model.commands[i])
      && model.running == running
      && Queues(pending, model.queue)
    }

    /** `list` holds the commands named by `ids`. */
    ghost predicate Queues(list: seq<PendingCommand>, ids: seq<nat>)
      reads this
    {
      && |list| == |ids|
      && forall j :: 0 <= j < |ids| ==> ids[j] < |commands| && list[j] == commands[ids[j]]
    }

    lemma QueuesSkip(list: seq<PendingCommand>, ids: seq<nat>, n: nat)
      requires Queues(list, ids) && n < |list|
      ensures Queues(list[..n] + list[n + 1..], SkipAt(ids, n))
    {
    }

    /** `cmd` is the command of call `cmd.id`. */
    ghost predicate Owns(cmd: PendingCommand)
      reads this
    {
      cmd.id < |commands| && cmd == commands[cmd.id]
    }

    /** `running_` has been set; `commands` are those the calls to come will make. */
    constructor (ghost commands: seq<PendingCommand>, ghost inputs: seq<string>, ghost stopCalls: nat)
      requires |commands| == |inputs|
      requires forall i :: 0 <= i < |inputs| ==> commands[i].id == i && commands[i].Value() == NewCommand(inputs[i])
      ensures Valid() && this.commands == commands && model == Init(inputs, stopCalls)
    {
      running, pending := true, [];
      this.commands := commands;
      model := Init(inputs, stopCalls);
    }

    // ---------------------------------------------------------- queue_and_wait

    method CheckRunning(ghost i: nat) returns (ok: bool)
      requires Valid() && i < |model.clients| && model.clients[i].Entry?
      modifies this`model
      ensures Valid() && model == ClientStep(old(model), i)
      ensures ok <==> model.clients[i].Admission?
    {
      ok := running;
      model := ClientStep(model, i);
    }

    method Admit(cmd: PendingCommand) returns (ok: bool)
      requires Valid() && Owns(cmd) && model.clients[cmd.id].Admission?
      modifies this`pending, this`model
      ensures Valid() && model == ClientStep(old(model), cmd.id)
      ensures ok <==> model.clients[cmd.id].Guard?
    {
      ok := |pending| < MAX_QUEUE;
      if ok {
        pending := pending + [cmd];
      }
      model := ClientStep(model, cmd.id);
    }

    /** The loop condition, and the test that picks the wait. */
    method TestGuard(cmd: PendingCommand) returns (leave: bool, waitForStart: bool)
      requires Valid() && Owns(cmd) && model.clients[cmd.id].Guard?
      modifies this`model
      ensures Valid() && model == ClientStep(old(model), cmd.id)
      ensures leave <==> model.clients[cmd.id].ReadCompleted?
      ensures waitForStart <==> model.clients[cmd.id].QueueWait?
    {
      leave := cmd.completed || !running;
      waitForStart := !leave && !cmd.started;
      model := ClientStep(model, cmd.id);
    }

    /** The bounded wait evaluates its condition; `deadline` says whether time is up. */
    method WakeOrCancel(cmd: PendingCommand, deadline: bool) returns (again: bool)
      requires Valid() && Owns(cmd) && model.clients[cmd.id].QueueWait?
      modifies this`model, cmd`canceled
      ensures Valid()
      ensures again <==> old(Woken(model, cmd.id)) || !deadline
      ensures model == if old(Woken(model, cmd.id)) then ClientStep(old(model), cmd.id)
                       else if deadline then Cancel(old(model), cmd.id) else old(model)
    {
      again := cmd.completed || cmd.started || !running;
      if again {
        model := ClientStep(model, cmd.id);
      } else if deadline {
        cmd.canceled := true;
        model := Cancel(model, cmd.id);
      } else {
        again := true;
      }
    }

    /** Finds the command in the queue and takes it out; `it` is where it was, or the end. */
    method Remove(cmd: PendingCommand) returns (ghost it: nat)
      requires Valid() && Owns(cmd)
      modifies this`pending
      ensures IsFirst(model.queue, cmd.id, it) && Queues(pending, SkipAt(model.queue, it))
    {
      var n := 0;
      while n < |pending| && pending[n] != cmd
        invariant 0 <= n <= |pending|
        invariant forall j :: 0 <= j < n ==> model.queue[j] != cmd.id
      {
        n := n + 1;
      }
      if n != |pending| {
        QueuesSkip(pending, model.queue, n);
        pending := pending[..n] + pending[n + 1..];
      }
      it := n;
    }

    method EraseOwn(cmd: PendingCommand)
      requires Valid() && Owns(cmd) && model.clients[cmd.id].Erase?
      modifies this`pending, this`model
      ensures Valid() && model == ClientStep(old(model), cmd.id)
    {
      ghost var it := Remove(cmd);
      ErasesAt(model, cmd.id, it);
      model := ClientStep(model, cmd.id);
    }

    method ReadCompleted(cmd: PendingCommand) returns (completed: bool)
      requires Valid() && Owns(cmd) && model.clients[cmd.id].ReadCompleted?
      modifies this`model
      ensures Valid() && model == ClientStep(old(model), cmd.id)
      ensures completed <==> model.clients[cmd.id].ReadPrefix?
    {
      completed := cmd.completed;
      model := ClientStep(model, cmd.id);
    }

    method ReadRunning(ghost i: nat) returns (reply: Reply)
      requires Valid() && i < |model.clients| && model.clients[i].ReadRunning?
      modifies this`model
      ensures Valid() && model == ClientStep(old(model), i)
      ensures model.clients[i].Returned? && model.clients[i].reply == reply
    {
      reply := if !running then Reply(false, STOPPED) else Reply(false, TIMED_OUT);
      model := ClientStep(model, i);
    }

    method ReadPrefix(cmd: PendingCommand) returns (ok: bool)
      requires Valid() && Owns(cmd) && model.clients[cmd.id].ReadPrefix?
      modifies this`model
      ensures Valid() && model == ClientStep(old(model), cmd.id)
      ensures model.clients[cmd.id] == ReadPayload(ok)
    {
      ok := !IsError(cmd.result);
      model := ClientStep(model, cmd.id);
    }

    method CopyPayload(cmd: PendingCommand, ok: bool) returns (reply: Reply)
      requires Valid() && Owns(cmd) && model.clients[cmd.id] == ReadPayload(ok)
      modifies this`model
      ensures Valid() && model == ClientStep(old(model), cmd.id)
      ensures model.clients[cmd.id] == Returned(AnswerExit, reply)
    {
      reply := Reply(ok, cmd.result);
      model := ClientStep(model, cmd.id);
    }

    // ---------------------------------------------------------- run_until_stopped

    method DrainerLoopHead() returns (go: bool)
      requires Valid() && model.drainer.LoopHead?
      modifies this`model
      ensures Valid() && model == DrainerStep(old(model))
      ensures go <==> model.drainer.InterruptCheck?
    {
      go := running;
      model := DrainerStep(model);
    }

    /** Asks whether to stop; `fired` is the answer. */
    method CheckInterrupt(fired: bool)
      requires Valid() && model.drainer.InterruptCheck?
      modifies this`model
      ensures Valid() && model == if fired then GoTo(old(model), Stopping) else DrainerStep(old(model))
    {
      model := if fired then GoTo(model, Stopping) else DrainerStep(model);
    }

    /** Leaves the loop once its own call of `stop` has returned. */
    method LeaveLoop()
      requires Valid() && model.drainer.Stopping? && model.stops[0].Finished?
      modifies this`model
      ensures Valid() && model == DrainerStep(old(model)) && model.drainer.Exited?
    {
      model := DrainerStep(model);
    }

    method PopFront() returns (cmd: PendingCommand?)
      requires Valid() && model.drainer.QueuePoll?
      modifies this`pending, this`model
      ensures Valid() && model == DrainerStep(old(model))
      ensures cmd == null <==> model.drainer.LoopHead?
      ensures cmd != null ==> Owns(cmd) && model.drainer == Claimed(cmd.id)
    {
      cmd := null;
      if pending != [] {
        cmd := pending[0];
        pending := pending[1..];
      }
      model := DrainerStep(model);
    }

    method Claim(cmd: PendingCommand) returns (shouldExecute: bool)
      requires Valid() && Owns(cmd) && model.drainer == Claimed(cmd.id)
      modifies this`model, cmd`started, cmd`completed
      ensures Valid() && model == DrainerStep(old(model))
      ensures shouldExecute <==> model.drainer == Executing(cmd.id)
    {
      shouldExecute := false;
      if !cmd.completed && !cmd.canceled {
        cmd.started := true;
        shouldExecute := true;
      } else if !cmd.completed && cmd.canceled {
        cmd.completed := true;
      }
      model := DrainerStep(model);
    }

    /** The callback has returned or thrown. */
    method Execute(cmd: PendingCommand, outcome: Outcome) returns (result: string)
      requires Valid() && Owns(cmd) && model.drainer == Executing(cmd.id)
      modifies this`model
      ensures Valid() && model == McpState.Execute(old(model), outcome)
      ensures model.drainer == Storing(cmd.id, result)
      ensures match outcome
              case Text(t) => result == t
              case Throws(w) => result == "Error: " + w
              case NoHandler => result == "Error: No handler for command type"
    {
      match outcome {
        case Text(t) => result := t;
        case Throws(w) => result := ERROR_PREFIX + w;
        case NoHandler => result := NO_HANDLER;
      }
      model := McpState.Execute(model, outcome);
    }

    method Store(cmd: PendingCommand, result: string)
      requires Valid() && Owns(cmd) && model.drainer == Storing(cmd.id, result)
      modifies this`model, cmd`result, cmd`completed
      ensures Valid() && model == DrainerStep(old(model))
    {
      if !cmd.completed {
        cmd.result := result;
        cmd.completed := true;
      }
      model := DrainerStep(model);
    }

    // ---------------------------------------------------------- stop

    method ClearRunning(ghost k: nat)
      requires Valid() && Enabled(model, Stop(k)) && model.stops[k].NotCalled?
      modifies this`running, this`model
      ensures Valid() && model == StopStep(old(model), k)
    {
      running := false;
      model := StopStep(model, k);
    }

    method SwapOut(ghost k: nat) returns (list: seq<PendingCommand>)
      requires Valid() && Enabled(model, Stop(k)) && model.stops[k].Swapping?
      modifies this`pending, this`model
      ensures Valid() && model == StopStep(old(model), k)
      ensures model.stops[k].Completing? && Queues(list, model.stops[k].rest)
    {
      list, pending := pending, [];
      model := StopStep(model, k);
    }

    /** One turn of the loop that completes the swapped-out commands, or its end. */
    method CompleteFront(ghost k: nat, list: seq<PendingCommand>) returns (rest: seq<PendingCommand>)
      requires Valid() && Enabled(model, Stop(k)) && model.stops[k].Completing? && Queues(list, model.stops[k].rest)
      modifies this`model, if list != [] then {list[0]} else {}
      ensures Valid() && model == StopStep(old(model), k)
      ensures if list == [] then model.stops[k].Finished?
              else model.stops[k].Completing? && Queues(rest, model.stops[k].rest)
    {
      rest := [];
      model := StopStep(model, k);
      if list == [] {
        return;
      }
      var cmd := list[0];
      rest := list[1..];
      if !cmd.completed {
        cmd.result := STOPPED;
        cmd.completed := true;
      }
    }
  }
}
