/** The rover's side of the command protocol: deduplication on the network thread, hand-off through two queues, dispatch on
    the executor thread, and the action callbacks. Every critical section is one step. */
module Rover {
  import opened Options
  import opened Commands
  import ModeAnnounce

  const SECOND := 1_000_000_000

  // ---- handlers ----

  /** What the handlers remember. */
  datatype Memory = Memory(activeGoal: Option<CmdId>, modes: map<string, int>, procs: map<string, int>)

  /** What a handler learns from outside: is the action server up, which processes live, what a process search finds and
      what a fork returns. */
  datatype Env = Env(serverUp: bool, alive: set<int>, found: int, forked: int)

  datatype Waiting = Nothing | ForGoal | ForCancel

  /** What the rover publishes to the autopilot, the recorder and the navigation server, and the processes it ends. */
  datatype Order =
    | SetArmed(armed: bool)
    | SetNavState(state: int)
    | Move(motion: Motion)
    | ForwardRecord(action: string)
    | RequestGoal(id: CmdId, target: Target)
    | RequestCancel(goal: CmdId)
    | Terminate(pid: int)

  /** The acknowledgement a handler sends before it returns, the callback it leaves behind, its memory afterwards and its
      orders. */
  datatype Outcome = Outcome(ack: Option<int>, waiting: Waiting, memory: Memory, orders: seq<Order>)

  const KNOWN_MODES := {"Rover Speed Steering", "Rover Speed Attitude", "Rover Speed Rate", "RoverManual"}

  function Says(status: int, m: Memory): Outcome {
    Outcome(Some(status), Nothing, m, [])
  }

  function Does(status: int, m: Memory, orders: seq<Order>): Outcome {
    Outcome(Some(status), Nothing, m, orders)
  }

  function HandleNavGoal(m: Memory, c: Command, env: Env): Outcome {
    if c.body.navGoal.None? || !env.serverUp || m.activeGoal.Some? then Says(ACK_REJECTED, m)
    else Outcome(None, ForGoal, m, [RequestGoal(c.id, c.body.navGoal.value)])
  }

  function HandleSetMode(m: Memory, c: Command): Outcome {
    if c.body.setMode.Some? && ModeAnnounce.Selectable(m.modes, c.body.setMode.value)
    then Does(ACK_ACCEPTED, m, [SetNavState(m.modes[c.body.setMode.value])])
    else Says(ACK_REJECTED, m)
  }

  function HandleCancelGoal(m: Memory): Outcome {
    if m.activeGoal.None? then Says(ACK_REJECTED, m)
    else Outcome(Some(ACK_ACCEPTED), ForCancel, m, [RequestCancel(m.activeGoal.value)])
  }

  function HandleDrive(m: Memory, c: Command): Outcome {
    if c.body.drive.Some? then Outcome(None, Nothing, m, [Move(c.body.drive.value)]) else Says(ACK_REJECTED, m)
  }

  predicate RecordAction(action: string) {
    action == "start" || action == "stop" || action == "toggle"
  }

  function HandleRecord(m: Memory, c: Command): Outcome {
    if c.body.record.Some? && RecordAction(c.body.record.value)
    then Does(ACK_ACCEPTED, m, [ForwardRecord(c.body.record.value)])
    else Says(ACK_REJECTED, m)
  }

  function HandleRegisterMode(m: Memory, c: Command, env: Env): Outcome {
    if c.body.registerMode.None? || c.body.registerMode.value !in KNOWN_MODES then Says(ACK_REJECTED, m)
    else
      var mode := c.body.registerMode.value;
      if mode in m.procs && m.procs[mode] in env.alive then Says(ACK_REJECTED, m)
      else if env.found > 0 && env.found in env.alive then
        Says(ACK_ACCEPTED, m.(procs := m.procs[mode := env.found]))
      else if env.forked < 0 then Says(ACK_FAILED, m.(procs := m.procs - {mode}))
      else Says(ACK_ACCEPTED, m.(procs := m.procs[mode := env.forked]))
  }

  function HandleUnregisterMode(m: Memory, c: Command, env: Env): Outcome {
    if c.body.unregisterMode.None? then Says(ACK_REJECTED, m)
    else
      var mode := c.body.unregisterMode.value;
      var m' := m.(procs := m.procs - {mode});
      var tracked := if mode in m.procs then m.procs[mode] else -1;
      var pid := if tracked <= 0 && mode in KNOWN_MODES then env.found else tracked;
      if pid <= 0 then Says(ACK_REJECTED, m')
      else Does(ACK_ACCEPTED, m'.(modes := m.modes - {mode}), [Terminate(pid)])
  }

  function Handle(m: Memory, c: Command, env: Env): Outcome {
    if c.code == CMD_NAV_GOAL then HandleNavGoal(m, c, env)
    else if c.code == CMD_ARM then Does(ACK_ACCEPTED, m, [SetArmed(true)])
    else if c.code == CMD_DISARM then Does(ACK_ACCEPTED, m, [SetArmed(false)])
    else if c.code == CMD_SET_MODE then HandleSetMode(m, c)
    else if c.code == CMD_ESTOP then Does(ACK_COMPLETED, m, [Move(Motion(0.0, 0.0)), SetArmed(false)])
    else if c.code == CMD_CANCEL_GOAL then HandleCancelGoal(m)
    else if c.code == CMD_DRIVE then HandleDrive(m, c)
    else if c.code == CMD_RECORD then HandleRecord(m, c)
    else if c.code == CMD_REGISTER_MODE then HandleRegisterMode(m, c, env)
    else if c.code == CMD_UNREGISTER_MODE then HandleUnregisterMode(m, c, env)
    else Says(ACK_REJECTED, m)
  }

  /** Every handler either sends its final acknowledgement, or starts an action of one of the two two-stage commands, or is
      the silent drive handler. */
  lemma HandleConforms(m: Memory, c: Command, env: Env)
    ensures var o := Handle(m, c, env);
            match o.waiting
            case Nothing => if o.ack.Some? then IsFinal(c.code, o.ack.value) else c.code == CMD_DRIVE
            case ForGoal => o.ack == None && c.code == CMD_NAV_GOAL
            case ForCancel => o.ack == Some(ACK_ACCEPTED) && c.code == CMD_CANCEL_GOAL
  {
  }

  // ---- state ----

  datatype Admission = Admission(cmd: Command, at: int)

  /** The network thread's part: the clock, the dedup table, and the command admitted but not yet queued. */
  datatype Receiver = Receiver(now: int, seen: map<CmdId, int>, inFlight: Option<Command>, admitted: seq<Admission>)

  /** An acknowledgement queue and a command queue: the shared pair, or the pair the drain timer swapped out. */
  datatype Queues = Queues(acks: seq<Ack>, cmds: seq<Command>)

  /** The executor thread's part: handler memory, outstanding action callbacks, and what was dispatched, sent and ordered so far.
      The network may lose any of the acknowledgements. */
  datatype Executor = Executor(
    memory: Memory, awaitGoal: multiset<CmdId>, awaitResult: multiset<CmdId>, awaitCancel: multiset<CmdId>,
    dispatched: seq<Command>, acks: seq<Ack>, orders: seq<Order>)

  datatype State = State(receiver: Receiver, queues: Queues, batch: Queues, executor: Executor)

  const EMPTY := Queues([], [])
  const INITIAL := State(
    Receiver(0, map[], None, []), EMPTY, EMPTY,
    Executor(Memory(None, map[], map[]), multiset{}, multiset{}, multiset{}, [], [], []))

  /** How the action server says a goal ended. */
  datatype ResultCode = UnknownCode | Succeeded | Canceled | Aborted

  datatype Event =
    | Tick(dt: nat)
    | Arrive(msg: Option<Command>)           // None: not a command message
    | Enqueue
    | Sweep
    | Swap
    | SendReceived
    | Dispatch(env: Env)
    | GoalResponse(id: CmdId, accepted: bool)
    | GoalResult(id: CmdId, result: ResultCode)
    | CancelResponse(id: CmdId, canceling: bool)
    | Announced(data: string)

  // ---- network thread ----

  predicate Admits(r: Receiver, msg: Option<Command>) {
    msg.Some? && msg.value.id.text != "" && msg.value.id !in r.seen
  }

  function Admit(r: Receiver, c: Command): Receiver {
    Receiver(r.now, r.seen[c.id := r.now], Some(c), r.admitted + [Admission(c, r.now)])
  }

  /** The age in whole seconds, cut off towards zero as the duration cast does. */
  function AgeSeconds(now: int, at: int): int {
    if at <= now then (now - at) / SECOND else -((at - now) / SECOND)
  }

  function Swept(evictS: int, now: int, seen: map<CmdId, int>): map<CmdId, int> {
    map id | id in seen && AgeSeconds(now, seen[id]) <= evictS :: seen[id]
  }

  function ReceivedAck(c: Command): Ack {
    Ack(c.id, c.code, ACK_RECEIVED)
  }

  function Push(q: Queues, c: Command): Queues {
    Queues(q.acks + [ReceivedAck(c)], q.cmds + [c])
  }

  // ---- executor thread ----

  function Send(x: Executor, a: Ack): Executor {
    x.(acks := x.acks + [a])
  }

  function Run(x: Executor, c: Command, env: Env): Executor {
    var o := Handle(x.memory, c, env);
    Executor(
      o.memory,
      if o.waiting.ForGoal? then x.awaitGoal + multiset{c.id} else x.awaitGoal,
      x.awaitResult,
      if o.waiting.ForCancel? then x.awaitCancel + multiset{c.id} else x.awaitCancel,
      x.dispatched + [c],
      if o.ack.Some? then x.acks + [Ack(c.id, c.code, o.ack.value)] else x.acks,
      x.orders + o.orders)
  }

  function GoalAnswered(x: Executor, id: CmdId, accepted: bool): Executor {
    if accepted then
      Executor(Memory(Some(id), x.memory.modes, x.memory.procs), x.awaitGoal - multiset{id},
               x.awaitResult + multiset{id}, x.awaitCancel, x.dispatched, x.acks + [Ack(id, CMD_NAV_GOAL, ACK_ACCEPTED)],
               x.orders)
    else
      Executor(x.memory, x.awaitGoal - multiset{id}, x.awaitResult, x.awaitCancel,
               x.dispatched, x.acks + [Ack(id, CMD_NAV_GOAL, ACK_REJECTED)], x.orders)
  }

  function GoalEnded(x: Executor, id: CmdId, result: ResultCode): Executor {
    var status := if result.Succeeded? || result.Canceled? then ACK_COMPLETED else ACK_FAILED;
    Executor(Memory(None, x.memory.modes, x.memory.procs), x.awaitGoal, x.awaitResult - multiset{id}, x.awaitCancel,
             x.dispatched, x.acks + [Ack(id, CMD_NAV_GOAL, status)], x.orders)
  }

  function CancelAnswered(x: Executor, id: CmdId, canceling: bool): Executor {
    Executor(x.memory, x.awaitGoal, x.awaitResult, x.awaitCancel - multiset{id},
             x.dispatched, x.acks + [Ack(id, CMD_CANCEL_GOAL, if canceling then ACK_COMPLETED else ACK_FAILED)], x.orders)
  }

  // ---- steps ----

  predicate Enabled(s: State, e: Event) {
    match e
    case Arrive(_) => s.receiver.inFlight.None?
    case Enqueue => s.receiver.inFlight.Some?
    case Swap => s.batch == EMPTY
    case SendReceived => s.batch.acks != []
    case Dispatch(_) => s.batch.acks == [] && s.batch.cmds != []
    case GoalResponse(id, _) => id in s.executor.awaitGoal
    case GoalResult(id, _) => id in s.executor.awaitResult
    case CancelResponse(id, _) => id in s.executor.awaitCancel
    case _ => true
  }

  function Step(evictS: int, s: State, e: Event): State
    requires Enabled(s, e)
  {
    match e
    case Tick(dt) => s.(receiver := s.receiver.(now := s.receiver.now + dt))
    case Arrive(msg) => if Admits(s.receiver, msg) then s.(receiver := Admit(s.receiver, msg.value)) else s
    case Enqueue =>
      s.(receiver := s.receiver.(inFlight := None), queues := Push(s.queues, s.receiver.inFlight.value))
    case Sweep => s.(receiver := s.receiver.(seen := Swept(evictS, s.receiver.now, s.receiver.seen)))
    case Swap => s.(batch := s.queues, queues := EMPTY)
    case SendReceived =>
      s.(batch := Queues(s.batch.acks[1..], s.batch.cmds), executor := Send(s.executor, s.batch.acks[0]))
    case Dispatch(env) =>
      s.(batch := Queues([], s.batch.cmds[1..]), executor := Run(s.executor, s.batch.cmds[0], env))
    case GoalResponse(id, accepted) => s.(executor := GoalAnswered(s.executor, id, accepted))
    case GoalResult(id, result) => s.(executor := GoalEnded(s.executor, id, result))
    case CancelResponse(id, canceling) => s.(executor := CancelAnswered(s.executor, id, canceling))
    case Announced(data) =>
      var m := s.executor.memory;
      s.(executor := s.executor.(memory := m.(modes := ModeAnnounce.OnAnnounce(m.modes, data))))
  }

  /** Events that are not enabled change nothing. */
  function Next(evictS: int, s: State, e: Event): State {
    if Enabled(s, e) then Step(evictS, s, e) else s
  }

  /** The state after a run; runs grow at the end. */
  function After(evictS: int, es: seq<Event>): State {
    if es == [] then INITIAL else Next(evictS, After(evictS, es[..|es| - 1]), es[|es| - 1])
  }
}
