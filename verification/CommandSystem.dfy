/** Gateway, tracker, network and rover together. The network may lose, repeat, delay and reorder commands and
    acknowledgements. The two sides' states are the states after their own runs, so what holds of every run of the rover and
    of every run of the tracker holds here. */
module CommandSystem {
  import opened Options
  import opened Commands
  import Rover
  import Tracking
  import Dedup
  import Handoff
  import AckGrammar
  import RoverRuns

  /** Ahead: the subscribers of the sent event that the bus calls before the tracker; true for one that suspends. */
  datatype Config = Config(evictS: int, ackTimeout: int, ahead: seq<bool>)

  /** What the gateway was asked to send. */
  datatype Sending = Sending(cmdType: CmdType, body: Body)

  /** Waiting: commands published but not registered, with the number of subscribers called so far; active: the one whose
      send_command the event loop is inside. */
  datatype System = System(
    sent: map<CmdId, Sending>, waiting: map<CmdId, nat>, active: Option<CmdId>,
    loop: seq<Tracking.Event>, robot: seq<Rover.Event>)

  const INITIAL := System(map[], map[], None, [], [])

  datatype Event =
    | Send(id: CmdId, sending: Sending)
    | Call                                   // the bus calls the next subscriber
    | Resume(id: CmdId)                      // a suspended send_command goes on
    | HandleAck(ack: Ack)
    | Loop(step: Tracking.Event)
    | Robot(act: Rover.Event)

  function MessageOf(id: CmdId, x: Sending): Command {
    Command(id, TypeCode(x.cmdType), x.body)
  }

  predicate WasSent(sent: map<CmdId, Sending>, c: Command) {
    c.id in sent && c == MessageOf(c.id, sent[c.id])
  }

  function TrackerOf(cfg: Config, s: System): Tracking.State {
    Tracking.After(cfg.ackTimeout, s.loop)
  }

  function RoverOf(cfg: Config, s: System): Rover.State {
    Rover.After(cfg.evictS, s.robot)
  }

  /** Ids are fresh; the loop does nothing else while it is inside send_command; only what was sent arrives, and any number
      of times; only what the rover sent is handled, and any number of times. */
  predicate Enabled(cfg: Config, s: System, e: Event) {
    match e
    case Send(id, _) =>
      s.active.None? && id.text != "" && id !in s.sent && id !in TrackerOf(cfg, s).issued
    case Call => s.active.Some? && s.active.value in s.waiting && s.active.value in s.sent
    case Resume(id) => s.active.None? && id in s.waiting
    case HandleAck(a) => s.active.None? && a in RoverOf(cfg, s).executor.acks
    case Loop(t) =>
      t.Tick? || (s.active.None? && (t.Spawn? || t.Check? || (t.Rejected? && t.id !in s.sent)))
    case Robot(r) =>
      r.Arrive? && r.msg.Some? ==> WasSent(s.sent, r.msg.value)
  }

  /** Drive commands are published and not tracked. A subscriber that suspends lets the loop go; after those ahead of it, the
      tracker registers the command. */
  function Step(cfg: Config, s: System, e: Event): System
    requires Enabled(cfg, s, e)
  {
    match e
    case Send(id, x) =>
      if x.cmdType.Drive? then s.(sent := s.sent[id := x])
      else s.(sent := s.sent[id := x], waiting := s.waiting[id := 0], active := Some(id))
    case Call =>
      var id := s.active.value;
      var at := s.waiting[id];
      if at < |cfg.ahead|
      then s.(waiting := s.waiting[id := at + 1], active := if cfg.ahead[at] then None else s.active)
      else s.(waiting := s.waiting - {id}, active := None,
              loop := s.loop + [Tracking.CmdSent(id, s.sent[id].cmdType)])
    case Resume(id) => s.(active := Some(id))
    case HandleAck(a) => s.(loop := s.loop + [Tracking.CmdAck(a)])
    case Loop(t) => s.(loop := s.loop + [t])
    case Robot(r) => s.(robot := s.robot + [r])
  }

  function Next(cfg: Config, s: System, e: Event): System {
    if Enabled(cfg, s, e) then Step(cfg, s, e) else s
  }

  /** The state after a run; runs grow at the end. */
  function After(cfg: Config, es: seq<Event>): System {
    if es == [] then INITIAL else Next(cfg, After(cfg, es[..|es| - 1]), es[|es| - 1])
  }

  // ---- invariants ----

  ghost predicate Resolved(t: Tracking.Tracker, id: CmdId) {
    exists q :: q in t.resolutions && q.record.id == id
  }

  /** Pending or with a result. */
  ghost predicate Held(t: Tracking.Tracker, id: CmdId) {
    id in t.pending || Resolved(t, id)
  }

  /** The tracker knows the type each command was sent with. */
  ghost predicate Typed(sent: map<CmdId, Sending>, t: Tracking.Tracker) {
    && (forall id :: id in t.pending ==> id in sent && t.pending[id].cmdType == sent[id].cmdType)
    && (forall q :: q in t.resolutions ==> q.record.id in sent && q.record.cmdType == sent[q.record.id].cmdType)
  }

  /** The rover sent this acknowledgement, and the result repeats it. */
  ghost predicate Repeats(q: Tracking.Resolution, a: Ack) {
    q.record.id == a.id && q.record.status == AckStatusName(a.status)
  }

  /** A result is a timeout or repeats an acknowledgement of the rover. */
  ghost predicate Caused(acks: seq<Ack>, t: Tracking.Tracker) {
    forall q :: q in t.resolutions ==> q.record.message.AckTimeout? || exists a :: a in acks && Repeats(q, a)
  }

  /** Only what was sent is admitted. */
  ghost predicate Genuine(sent: map<CmdId, Sending>, admitted: seq<Rover.Admission>) {
    forall l :: l in admitted ==> WasSent(sent, l.cmd)
  }

  /** Every command sent with tracking waits for its registration or is held. */
  ghost predicate Registered(sent: map<CmdId, Sending>, waiting: map<CmdId, nat>, t: Tracking.Tracker) {
    forall id :: id in sent && !sent[id].cmdType.Drive? && id !in waiting ==> Held(t, id)
  }

  /** What waits for its registration was sent and is unknown to the tracker. */
  ghost predicate Fresh(sent: map<CmdId, Sending>, waiting: map<CmdId, nat>, issued: set<CmdId>) {
    forall id :: id in waiting ==> id in sent && !sent[id].cmdType.Drive? && id !in issued
  }

  ghost predicate Inv(cfg: Config, s: System) {
    var t, r := TrackerOf(cfg, s), RoverOf(cfg, s);
    && Typed(s.sent, t.tracker)
    && Caused(r.executor.acks, t.tracker)
    && Genuine(s.sent, r.receiver.admitted)
    && Registered(s.sent, s.waiting, t.tracker)
    && Fresh(s.sent, s.waiting, t.issued)
  }

  // ---- one side at a time ----

  /** One step of the tracker: it knows types, results have causes, and what is held stays held. */
  lemma TrackerStep(default: int, sent: map<CmdId, Sending>, acks: seq<Ack>, s: Tracking.State, e: Tracking.Event)
    requires Tracking.Inv(default, s) && Tracking.Enabled(s, e)
    requires Typed(sent, s.tracker) && Caused(acks, s.tracker)
    requires e.CmdSent? ==> e.id in sent && e.cmdType == sent[e.id].cmdType
    requires e.CmdAck? ==> e.ack in acks
    ensures var t := Tracking.Step(default, s, e).tracker; Typed(sent, t) && Caused(acks, t)
  {
    hide Tracking.Upsert, Tracking.TerminalIffSettled, Tracking.OnTime, Tracking.Distinct, IsTerminal, AckStatusName;
    var t := Tracking.Step(default, s, e).tracker;
    forall q | q in t.resolutions ensures q.record.message.AckTimeout? || exists a :: a in acks && Repeats(q, a) {
      if q !in s.tracker.resolutions && e.CmdAck? {
        assert Repeats(q, e.ack);
      }
    }
  }

  lemma HeldStep(default: int, s: Tracking.State, e: Tracking.Event, id: CmdId)
    requires Tracking.Inv(default, s) && Tracking.Enabled(s, e)
    requires Held(s.tracker, id) || (e.CmdSent? && e.id == id)
    ensures Held(Tracking.Step(default, s, e).tracker, id)
  {
    hide Tracking.Upsert, Tracking.TerminalIffSettled, Tracking.OnTime, Tracking.Distinct, IsTerminal, AckStatusName;
    var t := Tracking.Step(default, s, e).tracker;
    Tracking.StepKeepsResults(default, s, e);
    if Resolved(s.tracker, id) {
      var q :| q in s.tracker.resolutions && q.record.id == id;
      assert q in t.resolutions;
    } else if id !in t.pending {
      var q := t.resolutions[|t.resolutions| - 1];
      assert q in t.resolutions && q.record.id == id;
    }
  }

  lemma AcksGrow(evictS: int, s: Rover.State, e: Rover.Event)
    ensures s.executor.acks <= Rover.Next(evictS, s, e).executor.acks
  {
    hide Rover.Handle, Rover.Swept;
  }

  lemma AdmittedGenuine(evictS: int, sent: map<CmdId, Sending>, s: Rover.State, e: Rover.Event)
    requires Genuine(sent, s.receiver.admitted)
    requires e.Arrive? && e.msg.Some? ==> WasSent(sent, e.msg.value)
    ensures Genuine(sent, Rover.Next(evictS, s, e).receiver.admitted)
  {
    hide Rover.Run, Rover.Swept, MessageOf;
  }

  // ---- the steps of the system ----

  lemma InvSend(cfg: Config, s: System, e: Event)
    requires Inv(cfg, s) && Enabled(cfg, s, e) && e.Send?
    ensures Inv(cfg, Step(cfg, s, e))
  {
    hide Held, Caused, MessageOf, Tracking.After, Rover.After;
  }

  /** A subscriber ahead of the tracker, and a suspended call that goes on, register nothing. */
  lemma InvElsewhere(cfg: Config, s: System, s': System)
    requires Inv(cfg, s) && s'.sent == s.sent && s'.loop == s.loop && s'.robot == s.robot
    requires s'.waiting.Keys == s.waiting.Keys
    ensures Inv(cfg, s')
  {
    hide Held, Typed, Caused, Genuine, Tracking.After, Rover.After;
    assert forall id :: id in s'.waiting <==> id in s.waiting.Keys;
  }

  /** The event loop takes one step of the tracker; registering ends the waiting. */
  lemma InvLoop(cfg: Config, s: System, s': System, e: Tracking.Event)
    requires Inv(cfg, s) && s'.sent == s.sent && s'.robot == s.robot && s'.loop == s.loop + [e]
    requires e.CmdSent? ==> e.id in s.waiting && e.cmdType == s.sent[e.id].cmdType && s'.waiting == s.waiting - {e.id}
    requires !e.CmdSent? ==> s'.waiting == s.waiting
    requires e.CmdAck? ==> e.ack in RoverOf(cfg, s).executor.acks
    requires e.Rejected? ==> e.id !in s.sent
    ensures Inv(cfg, s')
  {
    hide Held, Typed, Caused, Genuine, Tracking.After, Tracking.Inv, Tracking.Step;
    Tracking.AfterAppend(cfg.ackTimeout, s.loop, e);
    Tracking.RunInvariant(cfg.ackTimeout, s.loop);
    var t, t' := TrackerOf(cfg, s), TrackerOf(cfg, s');
    if Tracking.Enabled(t, e) {
      TrackerStep(cfg.ackTimeout, s.sent, RoverOf(cfg, s).executor.acks, t, e);
      forall id | id in s'.sent && !s'.sent[id].cmdType.Drive? && id !in s'.waiting ensures Held(t'.tracker, id) {
        HeldStep(cfg.ackTimeout, t, e, id);
      }
      IssuedBy(cfg.ackTimeout, t, e);
    }
  }

  lemma IssuedBy(default: int, s: Tracking.State, e: Tracking.Event)
    requires Tracking.Enabled(s, e)
    ensures Tracking.Step(default, s, e).issued == s.issued + if e.CmdSent? || e.Rejected? then {e.id} else {}
  {
  }

  lemma InvRobot(cfg: Config, s: System, e: Event)
    requires Inv(cfg, s) && Enabled(cfg, s, e) && e.Robot?
    ensures Inv(cfg, Step(cfg, s, e))
  {
    hide Held, Typed, Genuine, Registered, Rover.After, Tracking.After, Rover.Next, MessageOf;
    RoverRuns.AfterAppend(cfg.evictS, s.robot, e.act);
    var r := RoverOf(cfg, s);
    AcksGrow(cfg.evictS, r, e.act);
    AdmittedGenuine(cfg.evictS, s.sent, r, e.act);
    CausedMore(r.executor.acks, Rover.Next(cfg.evictS, r, e.act).executor.acks, TrackerOf(cfg, s).tracker);
  }

  lemma CausedMore(acks: seq<Ack>, more: seq<Ack>, t: Tracking.Tracker)
    requires Caused(acks, t) && acks <= more
    ensures Caused(more, t)
  {
    forall q | q in t.resolutions && !q.record.message.AckTimeout? ensures exists a :: a in more && Repeats(q, a) {
      var a :| a in acks && Repeats(q, a);
      assert a in more;
    }
  }

  lemma {:induction false} InvHolds(cfg: Config, es: seq<Event>)
    ensures Inv(cfg, After(cfg, es))
  {
    if es != [] {
      hide Inv, TrackerOf, RoverOf;
      InvHolds(cfg, es[..|es| - 1]);
      var s, e := After(cfg, es[..|es| - 1]), es[|es| - 1];
      if Enabled(cfg, s, e) {
        match e
        case Send(_, _) => InvSend(cfg, s, e);
        case Robot(_) => InvRobot(cfg, s, e);
        case Call =>
          var id := s.active.value;
          if s.waiting[id] < |cfg.ahead| {
            InvElsewhere(cfg, s, Step(cfg, s, e));
          } else {
            InvLoop(cfg, s, Step(cfg, s, e), Tracking.CmdSent(id, s.sent[id].cmdType));
          }
        case Resume(_) => InvElsewhere(cfg, s, Step(cfg, s, e));
        case HandleAck(a) => InvLoop(cfg, s, Step(cfg, s, e), Tracking.CmdAck(a));
        case Loop(t) => InvLoop(cfg, s, Step(cfg, s, e), t);
      }
    }
  }

  // ---- the registration race ----

  ghost predicate NoneSuspends(ahead: seq<bool>) {
    forall i :: 0 <= i < |ahead| ==> !ahead[i]
  }

  /** Nobody waits for registration while the loop is free. */
  lemma {:induction false} WaitingIsActive(cfg: Config, es: seq<Event>)
    requires NoneSuspends(cfg.ahead)
    ensures var s := After(cfg, es); forall id :: id in s.waiting ==> s.active == Some(id)
  {
    if es != [] {
      WaitingIsActive(cfg, es[..|es| - 1]);
      hide TrackerOf, RoverOf, MessageOf;
    }
  }

  /** An acknowledgement the loop handles for a command sent with tracking finds it pending or already settled. */
  ghost predicate Safe(cfg: Config, es: seq<Event>, a: Ack) {
    var s := After(cfg, es);
    Enabled(cfg, s, HandleAck(a)) && a.id in s.sent && !s.sent[a.id].cmdType.Drive? ==> Held(TrackerOf(cfg, s).tracker, a.id)
  }

  lemma NoRegistrationRace(cfg: Config, es: seq<Event>, a: Ack)
    requires NoneSuspends(cfg.ahead)
    ensures Safe(cfg, es, a)
  {
    hide Held, Typed, Caused, Genuine, Fresh, After, Tracking.After, Rover.After;
    InvHolds(cfg, es);
    WaitingIsActive(cfg, es);
  }

  lemma AfterAppend(cfg: Config, es: seq<Event>, e: Event)
    ensures After(cfg, es + [e]) == Next(cfg, After(cfg, es), e)
  {
    assert (es + [e])[..|es|] == es;
  }

  /** A command goes through the whole pipeline of a fresh rover before the loop does anything. */
  function FastRun(id: CmdId, x: Sending, env: Rover.Env): seq<Event> {
    var c := MessageOf(id, x);
    [Send(id, x), Robot(Rover.Arrive(Some(c))), Robot(Rover.Enqueue), Robot(Rover.Swap), Robot(Rover.SendReceived),
     Robot(Rover.Dispatch(env))]
  }

  lemma AfterFast(cfg: Config, id: CmdId, x: Sending, env: Rover.Env)
    requires id.text != "" && !x.cmdType.Drive?
    ensures After(cfg, FastRun(id, x, env))
            == System(map[id := x], map[id := 0], Some(id), [], RoverRuns.Handled(MessageOf(id, x), env))
  {
    var c := MessageOf(id, x);
    var rs := RoverRuns.Handled(c, env);
    hide Rover.After;
    var es := [Send(id, x)];
    assert After(cfg, []) == INITIAL && Tracking.After(cfg.ackTimeout, []) == Tracking.INITIAL;
    AfterAppend(cfg, [], Send(id, x));
    assert [] + [Send(id, x)] == es;
    AfterAppend(cfg, es, Robot(rs[0]));
    AfterAppend(cfg, es + [Robot(rs[0])], Robot(rs[1]));
    AfterAppend(cfg, es + [Robot(rs[0])] + [Robot(rs[1])], Robot(rs[2]));
    AfterAppend(cfg, es + [Robot(rs[0])] + [Robot(rs[1])] + [Robot(rs[2])], Robot(rs[3]));
    AfterAppend(cfg, es + [Robot(rs[0])] + [Robot(rs[1])] + [Robot(rs[2])] + [Robot(rs[3])], Robot(rs[4]));
    hide After, Tracking.After;
    assert FastRun(id, x, env)
           == es + [Robot(rs[0])] + [Robot(rs[1])] + [Robot(rs[2])] + [Robot(rs[3])] + [Robot(rs[4])];
    assert [] + [rs[0]] + [rs[1]] + [rs[2]] + [rs[3]] + [rs[4]] == rs;
  }

  /** What the rover has sent by then. */
  lemma FastAcks(evictS: int, c: Command, env: Rover.Env)
    requires c.id.text != ""
    ensures var acks := Rover.After(evictS, RoverRuns.Handled(c, env)).executor.acks;
            && Rover.ReceivedAck(c) in acks
            && (c.code == CMD_ARM ==> Ack(c.id, CMD_ARM, ACK_ACCEPTED) in acks)
  {
    hide Rover.After, Rover.Handle;
    RoverRuns.AfterNone(evictS);
    RoverRuns.AfterHandled(evictS, [], c, env);
    assert [] + RoverRuns.Handled(c, env) == RoverRuns.Handled(c, env);
    if c.code == CMD_ARM {
      ArmAccepted(Rover.INITIAL.executor.memory, c, env);
    }
  }

  lemma ArmAccepted(m: Rover.Memory, c: Command, env: Rover.Env)
    requires c.code == CMD_ARM
    ensures Rover.Handle(m, c, env).ack == Some(ACK_ACCEPTED)
  {
  }

  function Calls(n: nat): seq<Event> {
    seq(n, _ => Call)
  }

  /** The calls up to the first subscriber that suspends. */
  lemma {:induction false} AfterCalls(cfg: Config, es: seq<Event>, id: CmdId, n: nat)
    requires var s := After(cfg, es); s.active == Some(id) && id in s.sent && s.waiting == map[id := 0]
    requires n <= |cfg.ahead| && forall i :: 0 <= i < n - 1 ==> !cfg.ahead[i]
    ensures After(cfg, es + Calls(n))
            == After(cfg, es).(waiting := map[id := n], active := if n > 0 && cfg.ahead[n - 1] then None else Some(id))
  {
    hide After;
    if n == 0 {
      assert es + Calls(0) == es;
    } else {
      AfterCalls(cfg, es, id, n - 1);
      assert es + Calls(n) == es + Calls(n - 1) + [Call];
      AfterAppend(cfg, es + Calls(n - 1), Call);
    }
  }

  /** With a subscriber ahead of the tracker that suspends, the loop can handle an acknowledgement of a command that is
      neither pending nor settled; the tracker then ignores it. */
  lemma RegistrationRace(cfg: Config, id: CmdId, x: Sending, env: Rover.Env, i: nat)
    requires id.text != "" && !x.cmdType.Drive?
    requires i < |cfg.ahead| && cfg.ahead[i] && forall j :: 0 <= j < i ==> !cfg.ahead[j]
    ensures !Safe(cfg, FastRun(id, x, env) + Calls(i + 1), Rover.ReceivedAck(MessageOf(id, x)))
  {
    hide After, Rover.After;
    AfterFast(cfg, id, x, env);
    FastAcks(cfg.evictS, MessageOf(id, x), env);
    AfterCalls(cfg, FastRun(id, x, env), id, i + 1);
    assert Tracking.After(cfg.ackTimeout, []) == Tracking.INITIAL;
  }

  lemma FirstTrue(s: seq<bool>, k: nat) returns (i: nat)
    requires k < |s| && s[k]
    ensures i < |s| && s[i] && forall j :: 0 <= j < i ==> !s[j]
  {
    i := 0;
    while !s[i]
      invariant i <= k && forall j :: 0 <= j < i ==> !s[j]
      decreases k - i
    {
      i := i + 1;
    }
  }

  /** There is no registration race, in any run, if and only if no subscriber the bus calls before the tracker suspends. */
  lemma NoRaceExactly(cfg: Config)
    ensures (forall es, a :: Safe(cfg, es, a)) <==> NoneSuspends(cfg.ahead)
  {
    hide Safe;
    if NoneSuspends(cfg.ahead) {
      forall es, a ensures Safe(cfg, es, a) {
        NoRegistrationRace(cfg, es, a);
      }
    } else {
      var k :| 0 <= k < |cfg.ahead| && cfg.ahead[k];
      var i := FirstTrue(cfg.ahead, k);
      RegistrationRace(cfg, CmdId("a"), Sending(Arm, NO_PARTS), Rover.Env(true, {}, 0, 0), i);
    }
  }

  /** In the code's bus nobody is ahead of the tracker. The rover can still be faster than the registration: its
      acknowledgement is out while the command is neither pending nor settled, but the loop handles it only afterwards. */
  lemma AckBeforeRegistration(cfg: Config, id: CmdId, x: Sending, env: Rover.Env)
    requires id.text != "" && !x.cmdType.Drive? && cfg.ahead == []
    ensures var s, a := After(cfg, FastRun(id, x, env)), Rover.ReceivedAck(MessageOf(id, x));
            && a in RoverOf(cfg, s).executor.acks
            && !Held(TrackerOf(cfg, s).tracker, id)
            && !Enabled(cfg, s, HandleAck(a))
            && Enabled(cfg, After(cfg, FastRun(id, x, env) + [Call]), HandleAck(a))
  {
    hide After, Rover.After;
    AfterFast(cfg, id, x, env);
    FastAcks(cfg.evictS, MessageOf(id, x), env);
    AfterAppend(cfg, FastRun(id, x, env), Call);
    assert Tracking.After(cfg.ackTimeout, []) == Tracking.INITIAL;
  }

  // ---- end to end ----

  /** What the rover acknowledges was sent, under that number. */
  lemma AckOfSent(cfg: Config, es: seq<Event>, a: Ack)
    requires Dedup.NoLateCopy(cfg.evictS, After(cfg, es).robot)
    requires a in RoverOf(cfg, After(cfg, es)).executor.acks
    ensures var s := After(cfg, es); a.id in s.sent && a.code == TypeCode(s.sent[a.id].cmdType)
  {
    hide Held, Typed, Caused, Registered, Fresh, After, Tracking.After, Rover.After, TypeCode;
    var s := After(cfg, es);
    InvHolds(cfg, es);
    AckGrammar.OnlyAdmittedAcked(cfg.evictS, s.robot, a);
    var admitted := RoverOf(cfg, s).receiver.admitted;
    var c :| c in Handoff.Cmds(admitted) && c.id == a.id && c.code == a.code;
    var k :| 0 <= k < |admitted| && Handoff.Cmds(admitted)[k] == c;
    assert admitted[k] in admitted;
  }

  /** The acknowledgement is final, and the rover has sent no other final one for its command. */
  ghost predicate UniqueFinal(acks: seq<Ack>, a: Ack) {
    && IsFinal(a.code, a.status)
    && forall b :: b in acks && b.id == a.id && IsFinal(b.code, b.status) ==> b == a
  }

  /** Each tracked command is resolved at most once: by the rover's unique final acknowledgement, or by a timeout that is not
      early. */
  lemma Outcome(cfg: Config, es: seq<Event>, q: Tracking.Resolution)
    requires Dedup.NoLateCopy(cfg.evictS, After(cfg, es).robot)
    requires q in TrackerOf(cfg, After(cfg, es)).tracker.resolutions
    ensures var acks := RoverOf(cfg, After(cfg, es)).executor.acks;
            if q.record.message.AckTimeout?
            then q.record.status == AckFailed && q.at - q.sentAt >= Tracking.Timeout(cfg.ackTimeout, q.record.cmdType)
            else exists a :: a in acks && Repeats(q, a) && UniqueFinal(acks, a)
    ensures forall p :: p in TrackerOf(cfg, After(cfg, es)).tracker.resolutions && p.record.id == q.record.id ==> p == q
  {
    hide Held, Genuine, Registered, Fresh, After, Tracking.After, Rover.After;
    hide Tracking.ResolvedOnce, Tracking.TerminalIffSettled;
    var s := After(cfg, es);
    var t, acks := TrackerOf(cfg, s).tracker, RoverOf(cfg, s).executor.acks;
    InvHolds(cfg, es);
    Tracking.RunInvariant(cfg.ackTimeout, s.loop);
    forall p | p in t.resolutions && p.record.id == q.record.id ensures p == q {
      Tracking.ResolutionIsUnique(t.resolutions, p, q);
    }
    if !q.record.message.AckTimeout? {
      var a :| a in acks && Repeats(q, a);
      AckOfSent(cfg, es, a);
      TerminalIsFinal(q.record.cmdType, a.status);
      hide IsFinal, IsTerminal;
      forall b | b in acks && b.id == a.id && IsFinal(b.code, b.status) ensures b == a {
        AckGrammar.OneFinalAck(cfg.evictS, s.robot, a, b);
      }
    }
  }

  lemma {:induction false} RunsGrow(cfg: Config, es: seq<Event>, fs: seq<Event>)
    ensures After(cfg, es).loop <= After(cfg, es + fs).loop && After(cfg, es).robot <= After(cfg, es + fs).robot
  {
    hide Enabled;
    if fs == [] {
      assert es + fs == es;
    } else {
      assert (es + fs)[..|es + fs| - 1] == es + fs[..|fs| - 1];
      RunsGrow(cfg, es, fs[..|fs| - 1]);
    }
  }

  lemma Split<T>(a: seq<T>, b: seq<T>)
    requires a <= b
    ensures b == a + b[|a|..]
  {
  }

  /** A result stays what it is in every continuation. A final acknowledgement of the rover, past or future, says the same
      exactly if the result is not a timeout or the rover's outcome is a failure as well. */
  lemma Agreement(cfg: Config, es: seq<Event>, fs: seq<Event>, q: Tracking.Resolution)
    requires q in TrackerOf(cfg, After(cfg, es)).tracker.resolutions
    requires Dedup.NoLateCopy(cfg.evictS, After(cfg, es + fs).robot)
    ensures var s := After(cfg, es + fs);
            var t := TrackerOf(cfg, s).tracker;
            && q in t.resolutions
            && q.record.id !in t.pending
            && (forall p :: p in t.resolutions && p.record.id == q.record.id ==> p == q)
            && (forall r :: r in t.history && r.id == q.record.id ==> r == q.record)
            && (forall b :: b in RoverOf(cfg, s).executor.acks && b.id == q.record.id && IsFinal(b.code, b.status) ==>
                  (AckStatusName(b.status) == q.record.status <==> !q.record.message.AckTimeout? || b.status == ACK_FAILED))
  {
    hide After, Tracking.After, Rover.After, Dedup.NoLateCopy, IsFinal, AckStatusName;
    var before, s := After(cfg, es), After(cfg, es + fs);
    RunsGrow(cfg, es, fs);
    Split(before.loop, s.loop);
    Tracking.SettledForGood(cfg.ackTimeout, before.loop, s.loop[|before.loop|..], q);
    Outcome(cfg, es + fs, q);
    if q.record.message.AckTimeout? {
      FailedNames();
    }
  }

  lemma FailedNames()
    ensures forall status :: AckStatusName(status) == AckFailed <==> status == ACK_FAILED
  {
  }

  /** If a final acknowledgement is handled while its command is pending, the command's result is the rover's outcome: in
      every continuation the history shows that status for it, or has dropped it. */
  lemma FinalAckWins(cfg: Config, es: seq<Event>, a: Ack, fs: seq<Event>)
    requires Enabled(cfg, After(cfg, es), HandleAck(a)) && IsFinal(a.code, a.status)
    requires a.id in TrackerOf(cfg, After(cfg, es)).tracker.pending
    requires Dedup.NoLateCopy(cfg.evictS, After(cfg, es).robot)
    ensures var t := TrackerOf(cfg, After(cfg, es + [HandleAck(a)] + fs)).tracker;
            && (exists q :: q in t.resolutions && Repeats(q, a))
            && a.id !in t.pending
            && (forall r :: r in t.history && r.id == a.id ==> r.status == AckStatusName(a.status) && r.message.FromRover?)
  {
    var s := After(cfg, es);
    var es1 := es + [HandleAck(a)];
    assert es1[..|es|] == es;
    assert After(cfg, es1) == Step(cfg, s, HandleAck(a));
    hide After, Tracking.After, Rover.After, Dedup.NoLateCopy, IsFinal, AckStatusName;
    hide Genuine, Caused, Registered, Fresh;
    InvHolds(cfg, es);
    AckOfSent(cfg, es, a);
    var t := TrackerOf(cfg, s);
    var e := t.tracker.pending[a.id];
    TerminalIsFinal(e.cmdType, a.status);
    Tracking.AckSettles(cfg.ackTimeout, s.loop, a);
    var q := Tracking.Resolution(Tracking.AckRecord(e, a, t.now), e.sentAt, t.now);
    assert q in TrackerOf(cfg, After(cfg, es1)).tracker.resolutions && Repeats(q, a);
    RunsGrow(cfg, es1, fs);
    var l, l' := After(cfg, es1).loop, After(cfg, es1 + fs).loop;
    Split(l, l');
    Tracking.SettledForGood(cfg.ackTimeout, l, l'[|l|..], q);
  }

  // ---- the timeout can be first ----

  /** The rover arms at once, and its acknowledgements are not handled before the timeout. */
  function SlowNetwork(id: CmdId, env: Rover.Env, wait: nat): seq<Event> {
    FastRun(id, Sending(Arm, NO_PARTS), env) + [Call] + [Loop(Tracking.Spawn(id))] + [Loop(Tracking.Tick(wait))]
    + [Loop(Tracking.Check(id))]
  }

  lemma AfterSlowNetwork(cfg: Config, id: CmdId, env: Rover.Env, wait: nat)
    requires id.text != "" && cfg.ahead == []
    ensures var s := After(cfg, SlowNetwork(id, env, wait));
            && s.active.None?
            && s.robot == RoverRuns.Handled(MessageOf(id, Sending(Arm, NO_PARTS)), env)
            && s.loop == [Tracking.CmdSent(id, Arm)] + [Tracking.Spawn(id)] + [Tracking.Tick(wait)] + [Tracking.Check(id)]
  {
    hide After, Rover.After, Tracking.After;
    AfterFast(cfg, id, Sending(Arm, NO_PARTS), env);
    var es := FastRun(id, Sending(Arm, NO_PARTS), env);
    AfterAppend(cfg, es, Call);
    AfterAppend(cfg, es + [Call], Loop(Tracking.Spawn(id)));
    AfterAppend(cfg, es + [Call] + [Loop(Tracking.Spawn(id))], Loop(Tracking.Tick(wait)));
    AfterAppend(cfg, es + [Call] + [Loop(Tracking.Spawn(id))] + [Loop(Tracking.Tick(wait))], Loop(Tracking.Check(id)));
  }

  lemma TimedOut(default: int, id: CmdId, wait: nat)
    requires wait >= default
    ensures var es := [Tracking.CmdSent(id, Arm)] + [Tracking.Spawn(id)] + [Tracking.Tick(wait)] + [Tracking.Check(id)];
            var r := Tracking.HistoryRecord(id, Arm, AckFailed, Tracking.AckTimeout, default / Tracking.MS);
            var t := Tracking.After(default, es).tracker;
            t.resolutions == [Tracking.Resolution(r, 0, wait)] && t.history == [r]
  {
    var e1, e2, e3 := Tracking.CmdSent(id, Arm), Tracking.Spawn(id), Tracking.Tick(wait);
    var sent := Tracking.HistoryRecord(id, Arm, Sent, Tracking.CommandSent, 0);
    var r := Tracking.HistoryRecord(id, Arm, AckFailed, Tracking.AckTimeout, default / Tracking.MS);
    assert Tracking.After(default, []) == Tracking.INITIAL;
    Tracking.AfterAppend(default, [], e1);
    assert [] + [e1] == [e1];
    Tracking.AfterAppend(default, [e1], e2);
    Tracking.AfterAppend(default, [e1] + [e2], e3);
    Tracking.AfterAppend(default, [e1] + [e2] + [e3], Tracking.Check(id));
    hide Tracking.After;
    assert [sent] + [] == [sent];
    assert Tracking.Upsert([], sent) == [sent];
    assert Tracking.Upsert([sent], r) == [r];
    hide Tracking.Upsert;
    assert [] + [Tracking.Resolution(r, 0, wait)] == [Tracking.Resolution(r, 0, wait)];
  }

  /** Then the history says FAILED for good although the rover has armed and says ACCEPTED. */
  lemma TimeoutDisagrees(cfg: Config, id: CmdId, env: Rover.Env, wait: nat)
    requires id.text != "" && cfg.ahead == [] && wait >= cfg.ackTimeout
    ensures var s, a := After(cfg, SlowNetwork(id, env, wait)), Ack(id, CMD_ARM, ACK_ACCEPTED);
            var t := TrackerOf(cfg, s).tracker;
            && a in RoverOf(cfg, s).executor.acks && IsFinal(a.code, a.status) && Enabled(cfg, s, HandleAck(a))
            && (exists q :: q in t.resolutions && q.record.id == id && q.record.status == AckFailed)
            && (forall r :: r in t.history && r.id == id ==> r.status == AckFailed)
            && TrackerOf(cfg, After(cfg, SlowNetwork(id, env, wait) + [HandleAck(a)])) == TrackerOf(cfg, s)
  {
    hide After, Rover.After, Tracking.After, Tracking.Upsert;
    AfterSlowNetwork(cfg, id, env, wait);
    FastAcks(cfg.evictS, MessageOf(id, Sending(Arm, NO_PARTS)), env);
    TimedOut(cfg.ackTimeout, id, wait);
    var s, a := After(cfg, SlowNetwork(id, env, wait)), Ack(id, CMD_ARM, ACK_ACCEPTED);
    var t := TrackerOf(cfg, s).tracker;
    assert t.resolutions[0] in t.resolutions;
    Tracking.RunInvariant(cfg.ackTimeout, s.loop);
    AfterAppend(cfg, SlowNetwork(id, env, wait), HandleAck(a));
    Tracking.AckSettles(cfg.ackTimeout, s.loop, a);
    hide Tracking.TerminalIffSettled, Tracking.OnTime, Tracking.ResolvedOnce, Tracking.Distinct;
  }
}
