/** What the control centre's results mean on the rover: from the name of a command to what happened to it. */
module Results {
  import opened Options
  import opened Commands
  import opened CommandSystem
  import Rover
  import Tracking
  import Dedup
  import Handoff
  import Gateway
  import Answers
  import ModeProcesses
  import Orders
  import AckGrammar

  /** The gateway fills in the message like this for some parameters. */
  ghost predicate Built(x: Sending) {
    exists p: Gateway.Params :: Gateway.BodyFor(x.cmdType, p) == Some(x.body)
  }

  // ---- what is handed over was sent ----

  lemma {:induction false} AdmittedGrows(evictS: int, es: seq<Rover.Event>, k: nat)
    requires k <= |es|
    ensures Rover.After(evictS, es[..k]).receiver.admitted <= Rover.After(evictS, es).receiver.admitted
    decreases |es|
  {
    hide Rover.Run, Rover.Swept, Rover.Push, Rover.Admits;
    if k == |es| {
      assert es[..k] == es;
    } else {
      var before := es[..|es| - 1];
      AdmittedGrows(evictS, before, k);
      assert before[..k] == es[..k];
    }
  }

  lemma HeadAdmitted(s: Rover.State)
    requires Handoff.Inv(s) && s.batch.cmds != []
    ensures exists k :: 0 <= k < |s.receiver.admitted| && s.receiver.admitted[k].cmd == s.batch.cmds[0]
  {
    var k := |s.executor.dispatched|;
    assert Handoff.Cmds(s.receiver.admitted)[k] == s.batch.cmds[0];
  }

  /** A command that is handed to its handler is what the gateway sent. */
  lemma HandedWasSent(cfg: Config, es: seq<Event>, k: nat)
    requires k < |After(cfg, es).robot| && Answers.Runs(cfg.evictS, After(cfg, es).robot, k)
    ensures WasSent(After(cfg, es).sent, Answers.Handed(cfg.evictS, After(cfg, es).robot, k))
  {
    hide After, Rover.After, Held, Typed, Caused, Registered, Fresh, MessageOf, Handoff.Inv;
    InvHolds(cfg, es);
    var robot := After(cfg, es).robot;
    Handoff.InvHolds(cfg.evictS, robot[..k]);
    var s := Rover.After(cfg.evictS, robot[..k]);
    HeadAdmitted(s);
    AdmittedGrows(cfg.evictS, robot, k);
    var i :| 0 <= i < |s.receiver.admitted| && s.receiver.admitted[i].cmd == s.batch.cmds[0];
    assert Rover.After(cfg.evictS, robot).receiver.admitted[i] == s.receiver.admitted[i];
  }

  // ---- what is done was asked for ----

  /** Somebody asked for the order by sending x under this id. */
  predicate AskedFor(id: CmdId, x: Sending, o: Rover.Order) {
    match o
    case SetArmed(armed) => if armed then x.cmdType.Arm? else x.cmdType.Disarm? || x.cmdType.Estop?
    case Move(motion) =>
      (x.cmdType.Drive? && x.body.drive == Some(motion)) || (x.cmdType.Estop? && motion == Motion(0.0, 0.0))
    case SetNavState(_) => x.cmdType.SetMode?
    case ForwardRecord(action) => x.cmdType.Record? && x.body.record == Some(action)
    case RequestGoal(g, target) => g == id && x.cmdType.NavGoal? && x.body.navGoal == Some(target)
    case RequestCancel(_) => x.cmdType.CancelGoal?
    case Terminate(_) => x.cmdType.UnregisterMode?
  }

  lemma AskedByName(evictS: int, es: seq<Rover.Event>, k: nat, id: CmdId, x: Sending, o: Rover.Order)
    requires k < |es| && Orders.Asked(evictS, es, k, o) && Answers.Handed(evictS, es, k) == MessageOf(id, x)
    ensures AskedFor(id, x, o)
  {
    hide Answers.Handed, Answers.Runs, Orders.GoalLeft, ModeProcesses.NavState, ModeProcesses.Kept;
  }

  /** In every run of the whole system, late copies or not: whatever the rover orders was asked for by a command of the right name
      that was sent. The vehicle is armed only for an arm command, moved only as a drive command says or stopped, and so on. */
  lemma OrdersWereAsked(cfg: Config, es: seq<Event>, o: Rover.Order)
    requires o in RoverOf(cfg, After(cfg, es)).executor.orders
    ensures var sent := After(cfg, es).sent; exists id :: id in sent && AskedFor(id, sent[id], o)
  {
    hide After, Rover.After, Orders.Asked, AskedFor, MessageOf;
    var s := After(cfg, es);
    Orders.OrdersExactly(cfg.evictS, s.robot, o);
    var k :| 0 <= k < |s.robot| && Orders.Asked(cfg.evictS, s.robot, k, o);
    AskedRuns(cfg.evictS, s.robot, k, o);
    HandedWasSent(cfg, es, k);
    var c := Answers.Handed(cfg.evictS, s.robot, k);
    AskedByName(cfg.evictS, s.robot, k, c.id, s.sent[c.id], o);
  }

  lemma AskedRuns(evictS: int, es: seq<Rover.Event>, k: nat, o: Rover.Order)
    requires k < |es| && Orders.Asked(evictS, es, k, o)
    ensures Answers.Runs(evictS, es, k)
  {
  }

  // ---- final acknowledgements by name ----

  /** A record command of the gateway that is handed over has an action the rover knows, and a drive command its motion. */
  lemma BuiltParts(cfg: Config, es: seq<Event>, k: nat, id: CmdId)
    requires k < |After(cfg, es).robot| && id in After(cfg, es).sent && Built(After(cfg, es).sent[id])
    ensures var evictS, robot := cfg.evictS, After(cfg, es).robot;
            var t := After(cfg, es).sent[id].cmdType;
            && (t.Record? ==> !Answers.Records(evictS, robot, k, id, false))
            && (t.Drive? ==> !Answers.DrivesNothing(evictS, robot, k, id))
  {
    hide After, Rover.After, Answers.Handed, Answers.Runs, Gateway.Lower;
    if Answers.Runs(cfg.evictS, After(cfg, es).robot, k) {
      HandedWasSent(cfg, es, k);
    }
  }

  /** In every run of the system without a late copy, whatever the state of the rover: the final acknowledgement of an emergency
      stop is COMPLETED, of arming, disarming and recording ACCEPTED, of an unknown command REJECTED, and driving has none. */
  lemma FinalByName(cfg: Config, es: seq<Event>, a: Ack)
    requires Dedup.NoLateCopy(cfg.evictS, After(cfg, es).robot)
    requires a in RoverOf(cfg, After(cfg, es)).executor.acks && a.status != 0
    ensures var sent := After(cfg, es).sent;
            && a.id in sent
            && match sent[a.id].cmdType
               case Estop => a.status == 3
               case Arm => a.status == 1
               case Disarm => a.status == 1
               case Record => Built(sent[a.id]) ==> a.status == 1
               case Drive => !Built(sent[a.id])
               case SetParam => a.status == 2
               case Other(_) => a.status == 2
               case _ => true
  {
    hide After, Rover.After, Dedup.NoLateCopy, Answers.Executed, Answers.Records, Answers.DrivesNothing, Built;
    AckOfSent(cfg, es, a);
    var s := After(cfg, es);
    var x := s.sent[a.id];
    if x.cmdType.Record? || x.cmdType.Drive? {
      Answers.RecordAnswers(cfg.evictS, s.robot, a.id, a.status);
      if Built(x) {
        forall k | 0 <= k < |s.robot| {
          BuiltParts(cfg, es, k, a.id);
        }
      }
    } else if Answers.OnlyAnswer(a.code).Some? {
      Answers.OnlyAnswers(cfg.evictS, s.robot, a);
    }
  }

  // ---- what a result means ----

  /** A result that is not a timeout has the status the rover acknowledged, and no other of the final ones. */
  lemma ResultIs(cfg: Config, es: seq<Event>, q: Tracking.Resolution, status: int)
    requires Dedup.NoLateCopy(cfg.evictS, After(cfg, es).robot)
    requires q in TrackerOf(cfg, After(cfg, es)).tracker.resolutions && !q.record.message.AckTimeout?
    requires IsFinal(TypeCode(q.record.cmdType), status) && 1 <= status <= 4
    ensures Ack(q.record.id, TypeCode(q.record.cmdType), status) in RoverOf(cfg, After(cfg, es)).executor.acks
            <==> q.record.status == AckStatusName(status)
  {
    hide After, Tracking.After, Rover.After, Dedup.NoLateCopy, IsFinal, TypeCode, Held, Genuine, Registered, Fresh, Caused;
    var s := After(cfg, es);
    var acks := RoverOf(cfg, s).executor.acks;
    Outcome(cfg, es, q);
    InvHolds(cfg, es);
    var a :| a in acks && Repeats(q, a) && UniqueFinal(acks, a);
    AckOfSent(cfg, es, a);
    var b := Ack(q.record.id, TypeCode(q.record.cmdType), status);
    if b in acks {
      assert b == a;
    }
  }

  /** The results of commands with one answer. */
  lemma ResultByName(cfg: Config, es: seq<Event>, q: Tracking.Resolution)
    requires Dedup.NoLateCopy(cfg.evictS, After(cfg, es).robot)
    requires q in TrackerOf(cfg, After(cfg, es)).tracker.resolutions && !q.record.message.AckTimeout?
    ensures q.record.id in After(cfg, es).sent && After(cfg, es).sent[q.record.id].cmdType == q.record.cmdType
    ensures match q.record.cmdType
            case Estop => q.record.status == AckCompleted
            case Arm => q.record.status == AckAccepted
            case Disarm => q.record.status == AckAccepted
            case Record => Built(After(cfg, es).sent[q.record.id]) ==> q.record.status == AckAccepted
            case SetParam => q.record.status == AckRejected
            case Other(_) => q.record.status == AckRejected
            case _ => true
  {
    hide After, Tracking.After, Rover.After, Dedup.NoLateCopy, Held, Genuine, Registered, Fresh, Caused, Built;
    InvHolds(cfg, es);
    Outcome(cfg, es, q);
    var acks := RoverOf(cfg, After(cfg, es)).executor.acks;
    var a :| a in acks && Repeats(q, a) && UniqueFinal(acks, a);
    FinalByName(cfg, es, a);
  }

  /** In every run of the system without a late copy, what the control centre's result says of a command that did not time out:
      an emergency stop is completed; arming, disarming and recording accepted; a goal completed exactly if the server said it
      succeeded or was canceled, failed exactly if the server said it ended otherwise, rejected exactly if the server refused it
      or was never asked; a cancel what the server answered, or rejected exactly if no goal was there to cancel; a mode set,
      started or ended exactly if what is known of it allows. */
  lemma ResultMeans(cfg: Config, es: seq<Event>, q: Tracking.Resolution)
    requires Dedup.NoLateCopy(cfg.evictS, After(cfg, es).robot)
    requires q in TrackerOf(cfg, After(cfg, es)).tracker.resolutions && !q.record.message.AckTimeout?
    ensures var evictS, robot, id, r := cfg.evictS, After(cfg, es).robot, q.record.id, q.record.status;
            && id in After(cfg, es).sent
            && match q.record.cmdType
               case Estop => r == AckCompleted
               case Arm => r == AckAccepted
               case Disarm => r == AckAccepted
               case Record => Built(After(cfg, es).sent[id]) ==> r == AckAccepted
               case NavGoal =>
                 && (r == AckCompleted <==> Answers.Occurs(evictS, robot, Rover.GoalResult(id, Rover.Succeeded))
                                            || Answers.Occurs(evictS, robot, Rover.GoalResult(id, Rover.Canceled)))
                 && (r == AckFailed <==> Answers.Occurs(evictS, robot, Rover.GoalResult(id, Rover.Aborted))
                                         || Answers.Occurs(evictS, robot, Rover.GoalResult(id, Rover.UnknownCode)))
                 && (r == AckRejected <==> Answers.Occurs(evictS, robot, Rover.GoalResponse(id, false))
                                           || exists k :: 0 <= k < |robot| && Answers.RefusesGoal(evictS, robot, k, id))
               case CancelGoal =>
                 && (r == AckCompleted <==> Answers.Occurs(evictS, robot, Rover.CancelResponse(id, true)))
                 && (r == AckFailed <==> Answers.Occurs(evictS, robot, Rover.CancelResponse(id, false)))
                 && (r == AckRejected <==> exists k :: 0 <= k < |robot| && Answers.Cancels(evictS, robot, k, id, false))
               case SetMode =>
                 && (r == AckAccepted <==> exists k :: 0 <= k < |robot| && ModeProcesses.Selects(evictS, robot, k, id, 1))
                 && (r == AckRejected <==> exists k :: 0 <= k < |robot| && ModeProcesses.Selects(evictS, robot, k, id, 2))
               case RegisterMode =>
                 && (r == AckAccepted <==> exists k :: 0 <= k < |robot| && ModeProcesses.Registers(evictS, robot, k, id, 1))
                 && (r == AckRejected <==> exists k :: 0 <= k < |robot| && ModeProcesses.Registers(evictS, robot, k, id, 2))
                 && (r == AckFailed <==> exists k :: 0 <= k < |robot| && ModeProcesses.Registers(evictS, robot, k, id, 4))
               case UnregisterMode =>
                 && (r == AckAccepted <==> exists k :: 0 <= k < |robot| && ModeProcesses.Unregisters(evictS, robot, k, id, 1))
                 && (r == AckRejected <==> exists k :: 0 <= k < |robot| && ModeProcesses.Unregisters(evictS, robot, k, id, 2))
               case _ => q.record.cmdType.Drive? || r == AckRejected
  {
    hide After, Tracking.After, Rover.After, Dedup.NoLateCopy, Built;
    hide Answers.Occurs, Answers.RefusesGoal, Answers.Cancels;
    hide ModeProcesses.Selects, ModeProcesses.Registers, ModeProcesses.Unregisters;
    var evictS, robot, id, t := cfg.evictS, After(cfg, es).robot, q.record.id, q.record.cmdType;
    ResultByName(cfg, es, q);
    if t.NavGoal? || t.CancelGoal? || t.SetMode? || t.RegisterMode? || t.UnregisterMode? {
      ResultIs(cfg, es, q, 2);
      ResultIs(cfg, es, q, 3);
      ResultIs(cfg, es, q, 4);
      if !TwoStage(TypeCode(t)) {
        ResultIs(cfg, es, q, 1);
      }
      Answers.GoalAnswers(evictS, robot, id);
      Answers.CancelAnswers(evictS, robot, id);
      forall status | 1 <= status <= 4 {
        ModeProcesses.ModeAnswers(evictS, robot, id, status);
      }
    }
  }
}
