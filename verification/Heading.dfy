/** The speed-and-attitude mode: yaw rates are integrated into a heading setpoint that is kept in [-PI, PI].

    PI is the single-precision constant the code uses; sums and products are exact. */
module Heading {
  import opened Options

  const PI: real := 13176795.0 / 4194304.0
  const TWO_PI: real := 2.0 * PI

  datatype Command = Command(speed: real, yawRate: real)

  datatype State = State(
    yaw: real, command: Command, commandTime: int, received: bool, timedOut: bool)

  /** What the mode sends to the vehicle. */
  datatype Setpoint = Setpoint(speed: real, yaw: real)

  datatype Event =
    | Activate(heading: real)
    | Twist(command: Command, now: int)
    | Update(dt: real, now: int)

  // ---- wrapping ----

  function Down(angle: real): real
    decreases angle
  {
    if angle > PI then Down(angle - TWO_PI) else angle
  }

  function Up(angle: real): real
    decreases -angle
  {
    if angle < -PI then Up(angle + TWO_PI) else angle
  }

  function WrapPi(angle: real): real {
    Up(Down(angle))
  }

  /** k full turns. */
  function FullTurns(k: int): real {
    TWO_PI * k as real
  }

  lemma FullTurnsAdd(j: int, k: int)
    ensures FullTurns(j + k) == FullTurns(j) + FullTurns(k)
    ensures FullTurns(0) == 0.0 && FullTurns(1) == TWO_PI && FullTurns(-k) == -FullTurns(k)
  {
  }

  /** How many full turns the wrapping takes off. */
  function DownTurns(angle: real): int
    decreases angle
  {
    if angle > PI then 1 + DownTurns(angle - TWO_PI) else 0
  }

  function UpTurns(angle: real): int
    decreases -angle
  {
    if angle < -PI then 1 + UpTurns(angle + TWO_PI) else 0
  }

  function Turns(angle: real): int {
    DownTurns(angle) - UpTurns(Down(angle))
  }

  lemma {:induction false} DownFacts(angle: real)
    ensures Down(angle) <= PI && (angle >= -PI ==> Down(angle) >= -PI)
    ensures Down(angle) == angle - FullTurns(DownTurns(angle))
    decreases angle
  {
    hide FullTurns;
    FullTurnsAdd(1, DownTurns(angle - TWO_PI));
    if angle > PI {
      DownFacts(angle - TWO_PI);
    }
  }

  lemma {:induction false} UpFacts(angle: real)
    requires angle <= PI
    ensures -PI <= Up(angle) <= PI
    ensures Up(angle) == angle + FullTurns(UpTurns(angle))
    decreases -angle
  {
    hide FullTurns;
    FullTurnsAdd(1, UpTurns(angle + TWO_PI));
    if angle < -PI {
      UpFacts(angle + TWO_PI);
    }
  }

  lemma InRangeKept(angle: real)
    requires -PI <= angle <= PI
    ensures WrapPi(angle) == angle
  {
  }

  /** The wrapped angle is in range and differs from the angle by full turns. */
  lemma WrapFacts(angle: real)
    ensures -PI <= WrapPi(angle) <= PI
    ensures WrapPi(angle) == angle - FullTurns(Turns(angle))
    ensures -PI <= angle <= PI ==> WrapPi(angle) == angle
  {
    hide FullTurns, Down, Up, DownTurns, UpTurns;
    DownFacts(angle);
    UpFacts(Down(angle));
    FullTurnsAdd(DownTurns(angle), -UpTurns(Down(angle)));
    FullTurnsAdd(0, UpTurns(Down(angle)));
    if -PI <= angle <= PI {
      InRangeKept(angle);
    }
  }

  // ---- steps ----

  /** How far a rate turns the heading in one cycle. */
  function Turn(rate: real, dt: real): real {
    rate * dt
  }

  lemma TurnBack(rate: real, dt: real)
    ensures Turn(-rate, dt) == -Turn(rate, dt)
  {
  }

  predicate Expired(timeout: int, s: State, now: int) {
    now - s.commandTime > timeout
  }

  function Step(timeout: int, s: State, e: Event): State {
    match e
    case Activate(heading) => State(heading, Command(0.0, 0.0), s.commandTime, false, false)
    case Twist(command, now) => s.(command := command, commandTime := now, received := true)
    case Update(dt, now) =>
      if !s.received then s
      else if Expired(timeout, s, now) then s.(timedOut := true)
      else s.(timedOut := false, yaw := WrapPi(s.yaw + Turn(-s.command.yawRate, dt)))
  }

  function Sent(timeout: int, s: State, dt: real, now: int): Setpoint {
    if !s.received || Expired(timeout, s, now) then Setpoint(0.0, s.yaw)
    else Setpoint(s.command.speed, Step(timeout, s, Update(dt, now)).yaw)
  }

  function Run(timeout: int, s: State, es: seq<Event>): State {
    if es == [] then s else Step(timeout, Run(timeout, s, es[..|es| - 1]), es[|es| - 1])
  }

  // ---- what a run should add up to ----

  /** The last command of a run and when it came. */
  function LastCommand(es: seq<Event>): Option<(Command, int)> {
    if es == [] then None
    else
      var e := es[|es| - 1];
      if e.Twist? then Some((e.command, e.now)) else LastCommand(es[..|es| - 1])
  }

  /** The last event is a control cycle with a live command: one has come since activation, and not too long ago. */
  predicate LiveCycle(timeout: int, es: seq<Event>) {
    && es != []
    && es[|es| - 1].Update?
    && LastCommand(es[..|es| - 1]).Some?
    && es[|es| - 1].now - LastCommand(es[..|es| - 1]).value.1 <= timeout
  }

  /** The sum of rate times cycle length over the live cycles. */
  function RateSum(timeout: int, es: seq<Event>): real {
    if es == [] then 0.0
    else
      var before := es[..|es| - 1];
      RateSum(timeout, before)
      + (if LiveCycle(timeout, es) then Turn(LastCommand(before).value.0.yawRate, es[|es| - 1].dt) else 0.0)
  }

  predicate SomeLiveCycle(timeout: int, es: seq<Event>) {
    es != [] && (LiveCycle(timeout, es) || SomeLiveCycle(timeout, es[..|es| - 1]))
  }

  /** No second activation. */
  ghost predicate OneSession(es: seq<Event>) {
    forall k :: 0 <= k < |es| ==> !es[k].Activate?
  }

  /** How many full turns have been taken off since activation. */
  function TurnsTaken(timeout: int, s: State, es: seq<Event>): int {
    if es == [] then 0
    else
      var before := es[..|es| - 1];
      TurnsTaken(timeout, s, before)
      + (if LiveCycle(timeout, es)
         then Turns(Run(timeout, s, before).yaw + Turn(-LastCommand(before).value.0.yawRate, es[|es| - 1].dt))
         else 0)
  }

  /** The mode knows the last command of the session. */
  lemma {:induction false} CommandTracked(timeout: int, s0: State, heading: real, es: seq<Event>)
    requires OneSession(es)
    ensures var s := Run(timeout, Step(timeout, s0, Activate(heading)), es);
            && (s.received <==> LastCommand(es).Some?)
            && (s.received ==> LastCommand(es) == Some((s.command, s.commandTime)))
  {
    if es != [] {
      CommandTracked(timeout, s0, heading, es[..|es| - 1]);
    }
  }

  /** After any session the setpoint is the activation heading minus the summed rates of the live cycles, up to the full
      turns taken off. */
  lemma {:induction false} HeadingAccumulates(timeout: int, s0: State, heading: real, es: seq<Event>)
    requires OneSession(es)
    ensures var s1 := Step(timeout, s0, Activate(heading));
            Run(timeout, s1, es).yaw
            == heading - RateSum(timeout, es) - FullTurns(TurnsTaken(timeout, s1, es))
  {
    hide WrapPi, Turns, Turn, FullTurns;
    if es == [] {
      FullTurnsAdd(0, 0);
    } else {
      var before := es[..|es| - 1];
      HeadingAccumulates(timeout, s0, heading, before);
      CommandTracked(timeout, s0, heading, before);
      var s := Run(timeout, Step(timeout, s0, Activate(heading)), before);
      if LiveCycle(timeout, es) {
        var angle := s.yaw + Turn(-s.command.yawRate, es[|es| - 1].dt);
        WrapFacts(angle);
        TurnBack(s.command.yawRate, es[|es| - 1].dt);
        FullTurnsAdd(TurnsTaken(timeout, Step(timeout, s0, Activate(heading)), before), Turns(angle));
      }
    }
  }

  /** Without a live cycle the heading is held; with one the setpoint is wrapped. */
  lemma {:induction false} HeldOrWrapped(timeout: int, s0: State, heading: real, es: seq<Event>)
    requires OneSession(es)
    ensures var yaw := Run(timeout, Step(timeout, s0, Activate(heading)), es).yaw;
            if SomeLiveCycle(timeout, es) then -PI <= yaw <= PI else yaw == heading
  {
    hide WrapPi, Turn;
    if es != [] {
      var before := es[..|es| - 1];
      HeldOrWrapped(timeout, s0, heading, before);
      CommandTracked(timeout, s0, heading, before);
      var s := Run(timeout, Step(timeout, s0, Activate(heading)), before);
      if LiveCycle(timeout, es) {
        WrapFacts(s.yaw + Turn(-s.command.yawRate, es[|es| - 1].dt));
      }
    }
  }

  /** The setpoint is in [-PI, PI] after a session exactly if the session had a live cycle or started in range. */
  lemma InRangeExactly(timeout: int, s0: State, heading: real, es: seq<Event>)
    requires OneSession(es)
    ensures -PI <= Run(timeout, Step(timeout, s0, Activate(heading)), es).yaw <= PI
            <==> SomeLiveCycle(timeout, es) || -PI <= heading <= PI
  {
    HeldOrWrapped(timeout, s0, heading, es);
  }

  /** The vehicle is told to move only in a live cycle, and then with the last commanded speed. */
  lemma SpeedOnlyWhenLive(timeout: int, s0: State, heading: real, es: seq<Event>, dt: real, now: int)
    requires OneSession(es)
    ensures var s := Run(timeout, Step(timeout, s0, Activate(heading)), es);
            Sent(timeout, s, dt, now).speed
            == if LiveCycle(timeout, es + [Update(dt, now)]) then LastCommand(es).value.0.speed else 0.0
  {
    CommandTracked(timeout, s0, heading, es);
    assert (es + [Update(dt, now)])[..|es|] == es;
    hide WrapPi;
  }

  /** What the vehicle is told when the mode is left. */
  function Stop(s: State): Setpoint {
    Setpoint(0.0, s.yaw)
  }

  /** Leaving the mode after any session stops the vehicle and keeps the heading it was last told; with a live cycle that
      heading is in range, and without one it is that of the activation. */
  lemma StopKeepsHeading(timeout: int, s0: State, heading: real, es: seq<Event>, dt: real, now: int)
    requires OneSession(es)
    ensures var all := es + [Update(dt, now)];
            var s1 := Step(timeout, s0, Activate(heading));
            && Stop(Run(timeout, s1, all)) == Sent(timeout, Run(timeout, s1, es), dt, now).(speed := 0.0)
            && (if SomeLiveCycle(timeout, all) then -PI <= Stop(Run(timeout, s1, all)).yaw <= PI
                else Stop(Run(timeout, s1, all)).yaw == heading)
  {
    var all := es + [Update(dt, now)];
    assert all[..|es|] == es;
    hide WrapPi;
    HeldOrWrapped(timeout, s0, heading, all);
  }

  // ---- the mode ----

  class RoverSpeedAttitudeMode {
    const timeoutNs: int
    var yawSetpoint: real
    var lastCmdVel: Command
    var lastCmdVelTime: int
    var cmdVelReceived: bool
    var cmdVelTimedOut: bool

    function Value(): State
      reads this
    {
      State(yawSetpoint, lastCmdVel, lastCmdVelTime, cmdVelReceived, cmdVelTimedOut)
    }

    constructor (timeoutNs: int)
      ensures this.timeoutNs == timeoutNs
      ensures Value() == State(0.0, Command(0.0, 0.0), 0, false, false)
    {
      this.timeoutNs := timeoutNs;
      yawSetpoint := 0.0;
      lastCmdVel := Command(0.0, 0.0);
      lastCmdVelTime := 0;
      cmdVelReceived := false;
      cmdVelTimedOut := false;
    }

    method OnActivate(heading: real)
      modifies this
      ensures Value() == Step(timeoutNs, old(Value()), Activate(heading))
    {
      yawSetpoint := heading;
      lastCmdVel := Command(0.0, 0.0);
      cmdVelReceived := false;
      cmdVelTimedOut := false;
    }

    method OnDeactivate() returns (sent: Setpoint)
      ensures sent == Stop(Value())
    {
      sent := Setpoint(0.0, yawSetpoint);
    }

    method HandleTwist(command: Command, now: int)
      modifies this
      ensures Value() == Step(timeoutNs, old(Value()), Twist(command, now))
    {
      lastCmdVel := command;
      lastCmdVelTime := now;
      cmdVelReceived := true;
    }

    method UpdateSetpoint(dt: real, now: int) returns (sent: Setpoint)
      modifies this
      ensures Value() == Step(timeoutNs, old(Value()), Update(dt, now))
      ensures sent == Sent(timeoutNs, old(Value()), dt, now)
    {
      var received, timedOut := cmdVelReceived, false;
      if received {
        var age := now - lastCmdVelTime;
        timedOut := age > timeoutNs;
      }
      var cmd := lastCmdVel;
      if !received {
        return Setpoint(0.0, yawSetpoint);
      }
      if timedOut {
        if !cmdVelTimedOut {
          cmdVelTimedOut := true;
        }
        return Setpoint(0.0, yawSetpoint);
      }
      if cmdVelTimedOut {
        cmdVelTimedOut := false;
      }
      var yawRateNed := -cmd.yawRate;
      yawSetpoint := yawSetpoint + Turn(yawRateNed, dt);
      yawSetpoint := Wrap(yawSetpoint);
      sent := Setpoint(cmd.speed, yawSetpoint);
    }

    static method Wrap(start: real) returns (angle: real)
      ensures angle == WrapPi(start)
    {
      angle := start;
      while angle > PI
        invariant Down(angle) == Down(start)
        decreases angle
      {
        angle := angle - TWO_PI;
      }
      while angle < -PI
        invariant angle <= PI && Up(angle) == WrapPi(start)
        decreases -angle
      {
        angle := angle + TWO_PI;
      }
    }
  }
}
