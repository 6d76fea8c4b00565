/**
The command queue of the MCP server as a transition system.

Any number of client threads each make one call of `queue_and_wait`; one drainer runs
`run_until_stopped`; any number of threads call `stop`, and the drainer itself calls it
when its interrupt check fires. A step is one critical section, or one atomic read
outside a lock. Deadlines, the interrupt check and the outcome of the query callback
are chosen by the environment, through the event that names the step.
*/
module McpState {
  import opened Sequences

  const MAX_QUEUE: nat := 64
  const ERROR_PREFIX := "Error: "
  const NOT_RUNNING := "Error: MCP server is not running"
  const QUEUE_FULL := "Error: MCP queue is full"
  const TIMED_OUT := "Error: MCP request timed out in queue"
  const STOPPED := "Error: MCP server stopped"
  const NO_HANDLER := "Error: No handler for command type"

  /** What one invocation of the query callback did. */
  datatype Outcome = Text(text: string) | Throws(what: string) | NoHandler

  function ResultText(o: Outcome): string {
    match o
    case Text(t) => t
    case Throws(w) => ERROR_PREFIX + w
    case NoHandler => NO_HANDLER
  }

  predicate IsError(text: string) {
    ERROR_PREFIX <= text
  }

  datatype Command = Command(input: string, result: string, started: bool, canceled: bool, completed: bool)

  function NewCommand(input: string): Command {
    Command(input, "", false, false, false)
  }

  datatype Reply = Reply(success: bool, payload: string)

  /** The `return` statement through which a call of `queue_and_wait` left. */
  datatype Exit = NotRunningExit | FullExit | TimeoutExit | StoppedExit | FallbackExit | AnswerExit

  /** Where a call of `queue_and_wait` is; `Guard` is the head of its wait loop. */
  datatype ClientPc =
    | Entry
    | Admission
    | Guard
    | QueueWait
    | Erase
    | ReadCompleted
    | ReadRunning
    | ReadPrefix
    | ReadPayload(ok: bool)
    | Returned(exit: Exit, reply: Reply)

  datatype DrainerPc =
    | LoopHead
    | InterruptCheck
    | QueuePoll
    | Claimed(id: nat)
    | Executing(id: nat)
    | Storing(id: nat, text: string)
    | Stopping
    | Exited

  /** Where a call of `stop` is; `Completing` holds the list swapped out of the queue. */
  datatype StopPc = NotCalled | Swapping | Completing(rest: seq<nat>) | Finished

  /** History: where a command has got to. */
  datatype Place = Outside | Queued | InHand | InList(k: nat) | Done | Removed

  /** History: one invocation of the callback. */
  datatype Execution = Execution(id: nat, input: string, outcome: Outcome)

  /**
  Call `i` is `clients[i]` and creates `commands[i]`, so a command is named by its call.
  `stops[0]` is the call of `stop` that the drainer makes. The last four fields are
  history: no step's choice depends on them.
  */
  datatype State = State(
    running: bool,
    queue: seq<nat>,
    commands: seq<Command>,
    clients: seq<ClientPc>,
    drainer: DrainerPc,
    stops: seq<StopPc>,
    places: seq<Place>,
    admitted: seq<nat>,
    popped: seq<nat>,
    log: seq<Execution>)

  /** The environment's choice of which thread moves, and how. */
  datatype Event =
    | Client(i: nat)
    | Deadline(i: nat)
    | Drainer
    | Interrupt
    | Callback(outcome: Outcome)
    | Stop(k: nat)

  datatype Thread = ClientThread(i: nat) | DrainerThread | StopThread(k: nat)

  /** Whose step an event is. */
  function ThreadOf(e: Event): Thread {
    match e
    case Client(i) => ClientThread(i)
    case Deadline(i) => ClientThread(i)
    case Drainer => DrainerThread
    case Interrupt => DrainerThread
    case Callback(_) => DrainerThread
    case Stop(k) => if k == 0 then DrainerThread else StopThread(k)
  }

  /** The server just after `start` has set `running_`, with the calls that will be made. */
  function Init(inputs: seq<string>, stopCalls: nat): State {
    State(true, [],
          seq(|inputs|, i requires 0 <= i < |inputs| => NewCommand(inputs[i])),
          seq(|inputs|, _ => Entry), LoopHead, seq(stopCalls + 1, _ => NotCalled),
          seq(|inputs|, _ => Outside), [], [], [])
  }

  predicate IdsBelow(q: seq<nat>, n: nat) {
    forall j :: 0 <= j < |q| ==> q[j] < n
  }

  /** The shape every state of the system has. */
  predicate Shape(s: State) {
    && |s.commands| == |s.clients| == |s.places|
    && |s.stops| > 0
    && IdsBelow(s.queue, |s.clients|)
    && (s.drainer.Claimed? || s.drainer.Executing? || s.drainer.Storing? ==> s.drainer.id < |s.clients|)
    && (forall k :: 0 <= k < |s.stops| && s.stops[k].Completing? ==> IdsBelow(s.stops[k].rest, |s.clients|))
  }

  predicate SameShape(s: State, t: State) {
    Shape(t) && |t.clients| == |s.clients| && |t.stops| == |s.stops|
  }

  function At(s: State, i: nat, pc: ClientPc): State
    requires i < |s.clients|
  {
    s.(clients := s.clients[i := pc])
  }

  function Return(s: State, i: nat, exit: Exit, reply: Reply): State
    requires i < |s.clients|
  {
    At(s, i, Returned(exit, reply))
  }

  // ------------------------------------------------------------ clients

  /** Reads `running_` before anything else. */
  function CheckRunning(s: State, i: nat): State
    requires i < |s.clients|
  {
    if !s.running then Return(s, i, NotRunningExit, Reply(false, NOT_RUNNING)) else At(s, i, Admission)
  }

  /** The admission block, under the queue lock. */
  function Admit(s: State, i: nat): State
    requires Shape(s) && i < |s.clients|
  {
    if |s.queue| >= MAX_QUEUE then Return(s, i, FullExit, Reply(false, QUEUE_FULL))
    else
      At(s, i, Guard).(queue := s.queue + [i], places := s.places[i := Queued], admitted := s.admitted + [i])
  }

  /**
  The head of the wait loop, under the command's lock. A started command is waited for
  100 ms at a time and the loop starts over whatever that wait returns, so it stays here.
  */
  function TestGuard(s: State, i: nat): State
    requires Shape(s) && i < |s.clients|
  {
    if s.commands[i].completed || !s.running then At(s, i, ReadCompleted)
    else if s.commands[i].started then s
    else At(s, i, QueueWait)
  }

  /** What the wait for admission to execution waits for. */
  predicate Woken(s: State, i: nat)
    requires Shape(s) && i < |s.clients|
  {
    s.commands[i].completed || s.commands[i].started || !s.running
  }

  /** The deadline passes with the wait's condition still false: cancel, under the command's lock. */
  function Cancel(s: State, i: nat): State
    requires Shape(s) && i < |s.clients|
  {
    At(s, i, Erase).(commands := s.commands[i := s.commands[i].(canceled := true)])
  }

  function Without(q: seq<nat>, x: nat): seq<nat> {
    var k := FirstIndex(q, x);
    if k < |q| then q[..k] + q[k + 1..] else q
  }

  /** Find and erase, under the queue lock. */
  function EraseOwn(s: State, i: nat): State
    requires Shape(s) && i < |s.clients|
  {
    var t := Return(s, i, TimeoutExit, Reply(false, TIMED_OUT));
    if i in s.queue then t.(queue := Without(s.queue, i), places := s.places[i := Removed]) else t
  }

  /** The reads after the wait loop take no lock. */
  function TestCompleted(s: State, i: nat): State
    requires Shape(s) && i < |s.clients|
  {
    At(s, i, if s.commands[i].completed then ReadPrefix else ReadRunning)
  }

  function TestRunning(s: State, i: nat): State
    requires i < |s.clients|
  {
    if !s.running then Return(s, i, StoppedExit, Reply(false, STOPPED))
    else Return(s, i, FallbackExit, Reply(false, TIMED_OUT))
  }

  function TestPrefix(s: State, i: nat): State
    requires Shape(s) && i < |s.clients|
  {
    At(s, i, ReadPayload(!IsError(s.commands[i].result)))
  }

  function CopyPayload(s: State, i: nat): State
    requires Shape(s) && i < |s.clients| && s.clients[i].ReadPayload?
  {
    Return(s, i, AnswerExit, Reply(s.clients[i].ok, s.commands[i].result))
  }

  // ------------------------------------------------------------ drainer

  function GoTo(s: State, pc: DrainerPc): State {
    s.(drainer := pc)
  }

  /** The bounded wait for a command, under the queue lock; an empty queue ends it with nothing. */
  function Poll(s: State): State
    requires Shape(s)
  {
    if s.queue == [] then GoTo(s, LoopHead)
    else
      var c := s.queue[0];
      GoTo(s, Claimed(c)).(queue := s.queue[1..], places := s.places[c := InHand], popped := s.popped + [c])
  }

  /** Decides under the command's lock whether the popped command runs. */
  function Claim(s: State): State
    requires Shape(s) && s.drainer.Claimed?
  {
    var c := s.drainer.id;
    var cmd := s.commands[c];
    if !cmd.completed && !cmd.canceled then
      GoTo(s, Executing(c)).(commands := s.commands[c := cmd.(started := true)])
    else
      GoTo(s, LoopHead).(commands := s.commands[c := cmd.(completed := true)], places := s.places[c := Done])
  }

  /** The callback returns or throws. */
  function Execute(s: State, o: Outcome): State
    requires Shape(s) && s.drainer.Executing?
  {
    var c := s.drainer.id;
    GoTo(s, Storing(c, ResultText(o))).(log := s.log + [Execution(c, s.commands[c].input, o)])
  }

  function Completed(cmd: Command, result: string): Command {
    if cmd.completed then cmd else cmd.(result := result, completed := true)
  }

  /** Stores the result under the command's lock, unless the command is completed already. */
  function Store(s: State): State
    requires Shape(s) && s.drainer.Storing?
  {
    var c := s.drainer.id;
    GoTo(s, LoopHead).(commands := s.commands[c := Completed(s.commands[c], s.drainer.text)],
                       places := s.places[c := Done])
  }

  // ------------------------------------------------------------ stop

  function ClearRunning(s: State, k: nat): State
    requires k < |s.stops|
  {
    s.(running := false, stops := s.stops[k := Swapping])
  }

  /** Swaps the whole queue out, under the queue lock. */
  function SwapOut(s: State, k: nat): State
    requires Shape(s) && k < |s.stops|
  {
    s.(queue := [], stops := s.stops[k := Completing(s.queue)],
       places := seq(|s.places|, i requires 0 <= i < |s.places| =>
                       if i in s.queue then InList(k) else s.places[i]))
  }

  /** Completes the head of the swapped-out list, under that command's lock. */
  function CompleteHead(s: State, k: nat): State
    requires Shape(s) && k < |s.stops| && s.stops[k].Completing? && s.stops[k].rest != []
  {
    var c := s.stops[k].rest[0];
    s.(stops := s.stops[k := Completing(s.stops[k].rest[1..])],
       commands := s.commands[c := Completed(s.commands[c], STOPPED)],
       places := s.places[c := Done])
  }

  // ------------------------------------------------------------ the system

  predicate Enabled(s: State, e: Event)
    requires Shape(s)
  {
    match e
    case Client(i) =>
      i < |s.clients| && !s.clients[i].Returned? && (s.clients[i].QueueWait? ==> Woken(s, i))
    case Deadline(i) =>
      i < |s.clients| && s.clients[i].QueueWait? && !Woken(s, i)
    case Drainer =>
      !s.drainer.Exited? && !s.drainer.Executing? && (s.drainer.Stopping? ==> s.stops[0].Finished?)
    case Interrupt => s.drainer.InterruptCheck?
    case Callback(_) => s.drainer.Executing?
    case Stop(k) =>
      k < |s.stops| && !s.stops[k].Finished? && (k == 0 ==> s.drainer.Stopping?)
  }

  function ClientStep(s: State, i: nat): (t: State)
    requires Shape(s) && Enabled(s, Client(i))
    ensures SameShape(s, t)
  {
    match s.clients[i]
    case Entry => CheckRunning(s, i)
    case Admission => Admit(s, i)
    case Guard => TestGuard(s, i)
    case QueueWait => At(s, i, Guard)
    case Erase => EraseOwn(s, i)
    case ReadCompleted => TestCompleted(s, i)
    case ReadRunning => TestRunning(s, i)
    case ReadPrefix => TestPrefix(s, i)
    case ReadPayload(_) => CopyPayload(s, i)
  }

  function DrainerStep(s: State): (t: State)
    requires Shape(s) && Enabled(s, Drainer)
    ensures SameShape(s, t)
  {
    match s.drainer
    case LoopHead => GoTo(s, if s.running then InterruptCheck else Exited)
    case InterruptCheck => GoTo(s, QueuePoll)
    case QueuePoll => Poll(s)
    case Claimed(_) => Claim(s)
    case Storing(_, _) => Store(s)
    case Stopping => GoTo(s, Exited)
  }

  function StopStep(s: State, k: nat): (t: State)
    requires Shape(s) && Enabled(s, Stop(k))
    ensures SameShape(s, t)
  {
    match s.stops[k]
    case NotCalled => ClearRunning(s, k)
    case Swapping => SwapOut(s, k)
    case Completing(rest) =>
      if rest == [] then s.(stops := s.stops[k := Finished]) else CompleteHead(s, k)
  }

  function Step(s: State, e: Event): (t: State)
    requires Shape(s) && Enabled(s, e)
    ensures SameShape(s, t)
  {
    match e
    case Client(i) => ClientStep(s, i)
    case Deadline(i) => Cancel(s, i)
    case Drainer => DrainerStep(s)
    case Interrupt => GoTo(s, Stopping)
    case Callback(o) => Execute(s, o)
    case Stop(k) => StopStep(s, k)
  }

  /** Performing `es` one after the other takes `s` to `t`. */
  predicate Runs(s: State, es: seq<Event>, t: State)
    requires Shape(s)
    decreases |es|
  {
    if es == [] then s == t
    else Enabled(s, es[0]) && Runs(Step(s, es[0]), es[1..], t)
  }

  /** `s` occurs in some run of the server. */
  ghost predicate Reachable(s: State) {
    exists inputs, stopCalls, es :: Runs(Init(inputs, stopCalls), es, s)
  }
}
