/** The control centre's gateway: from the operator's parameters to a published message and a registered command. */
module Gateway {
  import opened Options
  import opened Commands
  import ModeAnnounce
  import ModeProcesses
  import Goals
  import Orders
  import Rover
  import Tracking

  /** The parameters a message is filled from. */
  datatype Params = Params(action: Option<string>, modeName: Option<string>, numbers: map<string, real>)

  function Number(p: Params, key: string): real {
    if key in p.numbers then p.numbers[key] else 0.0
  }

  function LowerChar(c: char): char {
    if 'A' <= c <= 'Z' then c - 'A' + 'a' else c
  }

  function Lower(s: string): string {
    seq(|s|, i requires 0 <= i < |s| => LowerChar(s[i]))
  }

  function OrElse(o: Option<string>, default: string): string {
    if o.Some? then o.value else default
  }

  /** The message's parts, or none for a record action nobody knows. */
  function BodyFor(t: CmdType, p: Params): Option<Body> {
    match t
    case NavGoal =>
      var target := Target(Number(p, "latitude"), Number(p, "longitude"), Number(p, "altitude"), Number(p, "yaw_deg"));
      Some(NO_PARTS.(navGoal := Some(target)))
    case SetMode => Some(NO_PARTS.(setMode := Some(OrElse(p.modeName, ""))))
    case Drive => Some(NO_PARTS.(drive := Some(Motion(Number(p, "speed_ms"), Number(p, "steering")))))
    case Record =>
      var action := Lower(OrElse(p.action, "toggle"));
      if action == "start" || action == "stop" || action == "toggle" then Some(NO_PARTS.(record := Some(action))) else None
    case RegisterMode => Some(NO_PARTS.(registerMode := Some(OrElse(p.modeName, ""))))
    case UnregisterMode => Some(NO_PARTS.(unregisterMode := Some(OrElse(p.modeName, ""))))
    case _ => Some(NO_PARTS)
  }

  /** The action with each letter in either case. */
  ghost predicate Spells(s: string, action: string) {
    && |s| == |action|
    && forall i :: 0 <= i < |s| ==> s[i] == action[i] || ('A' <= s[i] <= 'Z' && s[i] as int + 32 == action[i] as int)
  }

  lemma LowerSpells(s: string, action: string)
    requires forall i :: 0 <= i < |action| ==> 'a' <= action[i] <= 'z'
    ensures Lower(s) == action <==> Spells(s, action)
  {
    if Lower(s) == action {
      forall i | 0 <= i < |s|
        ensures s[i] == action[i] || ('A' <= s[i] <= 'Z' && s[i] as int + 32 == action[i] as int)
      {
        assert Lower(s)[i] == action[i];
      }
    }
  }

  /** An action arrives exactly if it was asked for, in any spelling, or nothing was asked for and it is "toggle"; any other
      request is not sent. */
  lemma RecordArrives(p: Params, action: string)
    requires action == "start" || action == "stop" || action == "toggle"
    ensures BodyFor(Record, p) == Some(NO_PARTS.(record := Some(action)))
            <==> if p.action.Some? then Spells(p.action.value, action) else action == "toggle"
    ensures BodyFor(Record, p).None?
            <==> p.action.Some? && !Spells(p.action.value, "start") && !Spells(p.action.value, "stop")
                 && !Spells(p.action.value, "toggle")
  {
    var asked := OrElse(p.action, "toggle");
    LowerSpells(asked, action);
    LowerSpells(asked, "start");
    LowerSpells(asked, "stop");
    LowerSpells(asked, "toggle");
    assert Spells("toggle", "toggle");
    hide Spells, Lower;
  }

  // ---- what the rover makes of it ----

  /** The message has at least these parts. */
  predicate Extends(b: Body, parts: Body) {
    && (parts.navGoal.Some? ==> b.navGoal == parts.navGoal)
    && (parts.drive.Some? ==> b.drive == parts.drive)
    && (parts.setMode.Some? ==> b.setMode == parts.setMode)
    && (parts.record.Some? ==> b.record == parts.record)
    && (parts.registerMode.Some? ==> b.registerMode == parts.registerMode)
    && (parts.unregisterMode.Some? ==> b.unregisterMode == parts.unregisterMode)
  }

  /** The parts the gateway fills in are all the rover's handlers look at: whatever is added to them changes neither the
      answer nor what the rover remembers, so no message of the gateway is treated as incomplete. */
  lemma NothingMissing(m: Rover.Memory, id: CmdId, t: CmdType, p: Params, env: Rover.Env, more: Body)
    requires BodyFor(t, p).Some? && Extends(more, BodyFor(t, p).value)
    ensures Rover.Handle(m, Command(id, TypeCode(t), more), env)
            == Rover.Handle(m, Command(id, TypeCode(t), BodyFor(t, p).value), env)
  {
  }

  /** The state of the rover is in the way of the command. */
  predicate Refuses(m: Rover.Memory, t: CmdType, p: Params, env: Rover.Env) {
    var mode := OrElse(p.modeName, "");
    var live := mode in m.procs && m.procs[mode] in env.alive;
    match t
    case NavGoal => !env.serverUp || m.activeGoal.Some?
    case SetMode => !ModeAnnounce.Selectable(m.modes, mode)
    case CancelGoal => m.activeGoal.None?
    case RegisterMode => mode !in Rover.KNOWN_MODES || live
    case UnregisterMode =>
      !(mode in m.procs && m.procs[mode] > 0) && !(mode in Rover.KNOWN_MODES && env.found > 0)
    case _ => false
  }

  /** A message of the gateway is never rejected for being incomplete: the rover rejects it exactly if its own state is in
      the way, or if the command is one it does not have. */
  lemma RejectedExactly(m: Rover.Memory, id: CmdId, t: CmdType, p: Params, env: Rover.Env)
    requires BodyFor(t, p).Some?
    ensures Rover.Handle(m, Command(id, TypeCode(t), BodyFor(t, p).value), env).ack == Some(ACK_REJECTED)
            <==> Refuses(m, t, p, env) || t.SetParam? || t.Other?
  {
  }

  /** The value of a parameter; zero if it is missing. */
  predicate Given(p: Params, key: string, value: real) {
    if key in p.numbers then value == p.numbers[key] else value == 0.0
  }

  ghost predicate MovesAs(p: Params, orders: seq<Rover.Order>) {
    && |orders| == 1 && orders[0].Move?
    && Given(p, "speed_ms", orders[0].motion.speed) && Given(p, "steering", orders[0].motion.steering)
  }

  ghost predicate GoesTo(p: Params, id: CmdId, orders: seq<Rover.Order>) {
    && |orders| == 1 && orders[0].RequestGoal? && orders[0].id == id
    && var t := orders[0].target;
    && Given(p, "latitude", t.latitude) && Given(p, "longitude", t.longitude)
    && Given(p, "altitude", t.altitude) && Given(p, "yaw_deg", t.yawDeg)
  }

  ghost predicate ForwardsAs(p: Params, orders: seq<Rover.Order>) {
    && |orders| == 1 && orders[0].ForwardRecord?
    && if p.action.Some? then Spells(p.action.value, orders[0].action) else orders[0].action == "toggle"
  }

  /** A missing name is the empty one. */
  function ModeAsked(p: Params): string {
    match p.modeName
    case Some(name) => name
    case None => ""
  }

  /** What an operator's command comes to: by its name and parameters, the goal left to cancel, the id its mode is known by and the
      process its mode has. */
  ghost predicate Done(id: CmdId, t: CmdType, p: Params, env: Rover.Env, goal: Option<CmdId>, known: Option<int>, own: Option<int>,
                       o: Rover.Outcome)
  {
    var mode := ModeAsked(p);
    match t
    case Estop => o.ack == Some(3) && o.orders == [Rover.Move(Motion(0.0, 0.0)), Rover.SetArmed(false)]
    case Arm => o.ack == Some(1) && o.orders == [Rover.SetArmed(true)]
    case Disarm => o.ack == Some(1) && o.orders == [Rover.SetArmed(false)]
    case Record => o.ack == Some(1) && ForwardsAs(p, o.orders)
    case Drive => o.ack == None && o.waiting.Nothing? && MovesAs(p, o.orders)
    case NavGoal =>
      if env.serverUp && goal.None? then o.ack == None && o.waiting.ForGoal? && GoesTo(p, id, o.orders)
      else o.ack == Some(2) && o.orders == []
    case CancelGoal =>
      if goal.Some? then o.ack == Some(1) && o.waiting.ForCancel? && o.orders == [Rover.RequestCancel(goal.value)]
      else o.ack == Some(2) && o.orders == []
    case SetMode =>
      if known.Some? && known.value >= 0 then o.ack == Some(1) && o.orders == [Rover.SetNavState(known.value)]
      else o.ack == Some(2) && o.orders == []
    case RegisterMode =>
      && o.orders == []
      && o.ack == Some(if mode !in Rover.KNOWN_MODES || (own.Some? && own.value in env.alive) then 2
                       else if ModeProcesses.FindsLive(env) || env.forked >= 0 then 1 else 4)
    case UnregisterMode =>
      var pid := if own.Some? && own.value > 0 then own.value else if mode in Rover.KNOWN_MODES then env.found else 0;
      if pid > 0 then o.ack == Some(1) && o.orders == [Rover.Terminate(pid)] else o.ack == Some(2) && o.orders == []
    case _ => o.ack == Some(2) && o.orders == []
  }

  lemma HandlerDoes(m: Rover.Memory, id: CmdId, t: CmdType, p: Params, env: Rover.Env)
    requires BodyFor(t, p).Some?
    ensures var mode := ModeAsked(p);
            Done(id, t, p, env, m.activeGoal, ModeProcesses.Lookup(m.modes, mode), ModeProcesses.Lookup(m.procs, mode),
                 Rover.Handle(m, Command(id, TypeCode(t), BodyFor(t, p).value), env))
  {
    hide Lower, Spells;
    if t.Record? {
      RecordArrives(p, BodyFor(t, p).value.record.value);
    }
  }

  /** What the operator's command does after a run, whatever the rover's state. An emergency stop is COMPLETED with a stop and a
      disarm; arming, disarming and recording are ACCEPTED; driving moves as asked and is not answered; unknown commands are
      REJECTED. A goal is asked for exactly if a server is up and no goal was accepted last, a cancel exactly for a goal that was,
      a mode is set exactly if its id is known, started exactly if it does not live, and ended exactly if it has a process. */
  lemma DoneInRun(evictS: int, es: seq<Rover.Event>, id: CmdId, t: CmdType, p: Params, env: Rover.Env)
    requires BodyFor(t, p).Some?
    ensures var mode := ModeAsked(p);
            Done(id, t, p, env, Orders.GoalLeft(evictS, es), ModeProcesses.NavState(evictS, es, mode),
                 ModeProcesses.Kept(evictS, es, mode),
                 Rover.Handle(Rover.After(evictS, es).executor.memory, Command(id, TypeCode(t), BodyFor(t, p).value), env))
  {
    hide Rover.After, Rover.Handle, Done, BodyFor, Goals.LastAnswer, Goals.LastAccepted;
    hide ModeProcesses.NavState, ModeProcesses.Kept;
    HandlerDoes(Rover.After(evictS, es).executor.memory, id, t, p, env);
    Goals.RememberedExactly(evictS, es);
    ModeProcesses.MemoryIs(evictS, es, ModeAsked(p));
  }

  // ---- the object ----

  datatype LogEntry = LogEntry(id: CmdId, cmdType: CmdType, params: Params)

  class CommandGateway {
    const tracker: Tracking.AckTracker
    var published: seq<Command>
    var commandLog: seq<LogEntry>

    constructor (tracker: Tracking.AckTracker)
      ensures published == [] && commandLog == [] && this.tracker == tracker
    {
      this.tracker := tracker;
      published, commandLog := [], [];
    }

    /** One stretch of the event loop from the fresh id to the registration; allowed is the safety gate's answer. */
    method SendCommand(id: CmdId, allowed: bool, cmdType: CmdType, params: Params) returns (sent: bool)
      modifies this, tracker`pending, tracker`history
      ensures sent <==> allowed && BodyFor(cmdType, params).Some?
      ensures published == if sent then old(published) + [Command(id, TypeCode(cmdType), BodyFor(cmdType, params).value)]
                           else old(published)
      ensures var tracked := sent && !cmdType.Drive?;
              && commandLog == (if tracked then old(commandLog) + [LogEntry(id, cmdType, params)] else old(commandLog))
              && tracker.Value() == if tracked
                                    then Tracking.Register(tracker.default, old(tracker.Value()), id, cmdType, tracker.now)
                                    else old(tracker.Value())
    {
      if !allowed {
        return false;
      }
      var body := NO_PARTS;
      if cmdType.NavGoal? {
        var latitude, longitude := Number(params, "latitude"), Number(params, "longitude");
        var altitude, yawDeg := Number(params, "altitude"), Number(params, "yaw_deg");
        body := body.(navGoal := Some(Target(latitude, longitude, altitude, yawDeg)));
      } else if cmdType.SetMode? {
        body := body.(setMode := Some(OrElse(params.modeName, "")));
      } else if cmdType.Drive? {
        body := body.(drive := Some(Motion(Number(params, "speed_ms"), Number(params, "steering"))));
      } else if cmdType.Record? {
        var action := Lower(OrElse(params.action, "toggle"));
        if action !in ["start", "stop", "toggle"] {
          return false;
        }
        body := body.(record := Some(action));
      } else if cmdType.RegisterMode? {
        body := body.(registerMode := Some(OrElse(params.modeName, "")));
      } else if cmdType.UnregisterMode? {
        body := body.(unregisterMode := Some(OrElse(params.modeName, "")));
      }
      published := published + [Command(id, TypeCode(cmdType), body)];
      if cmdType.Drive? {
        return true;
      }
      commandLog := commandLog + [LogEntry(id, cmdType, params)];
      tracker.OnCmdSent(id, cmdType);
      return true;
    }
  }
}
