/** The rover's command side as the object it is: tables, queues and goal state changed in place by the network thread, the
    timers and the action callbacks. Each method is tied to the steps of the protocol model. */
module Telemetry {
  import opened Options
  import opened Commands
  import opened Rover
  import ModeAnnounce

  // ---- stretches of a run ----

  /** The state some events lead to. */
  function From(evictS: int, s: State, es: seq<Event>): State {
    if es == [] then s else Next(evictS, From(evictS, s, es[..|es| - 1]), es[|es| - 1])
  }

  lemma FromAppend(evictS: int, s: State, es: seq<Event>, e: Event)
    ensures From(evictS, s, es + [e]) == Next(evictS, From(evictS, s, es), e)
  {
    assert (es + [e])[..|es|] == es;
  }

  lemma {:induction false} AfterFrom(evictS: int, es: seq<Event>, fs: seq<Event>)
    ensures After(evictS, es + fs) == From(evictS, After(evictS, es), fs)
  {
    if fs == [] {
      assert es + fs == es;
    } else {
      assert (es + fs)[..|es + fs| - 1] == es + fs[..|fs| - 1];
      AfterFrom(evictS, es, fs[..|fs| - 1]);
    }
  }

  function Repeat(e: Event, n: nat): seq<Event> {
    seq(n, _ => e)
  }

  function Dispatches(envs: seq<Env>): seq<Event> {
    seq(|envs|, i requires 0 <= i < |envs| => Dispatch(envs[i]))
  }

  /** One drain timer callback: swap, send the swapped-out acknowledgements, dispatch the swapped-out commands. */
  function DrainEvents(acks: nat, envs: seq<Env>): seq<Event> {
    [Swap] + Repeat(SendReceived, acks) + Dispatches(envs)
  }

  // ---- the effect of a handler ----

  function Effect(x: Executor, c: Command, o: Outcome): Executor {
    Executor(
      o.memory,
      if o.waiting.ForGoal? then x.awaitGoal + multiset{c.id} else x.awaitGoal,
      x.awaitResult,
      if o.waiting.ForCancel? then x.awaitCancel + multiset{c.id} else x.awaitCancel,
      x.dispatched,
      if o.ack.Some? then x.acks + [Ack(c.id, c.code, o.ack.value)] else x.acks,
      x.orders + o.orders)
  }

  lemma RunIsEffect(x: Executor, c: Command, env: Env)
    ensures Run(x, c, env) == Effect(x.(dispatched := x.dispatched + [c]), c, Handle(x.memory, c, env))
  {
    hide Handle;
  }

  function SendAll(x: Executor, acks: seq<Ack>): Executor {
    x.(acks := x.acks + acks)
  }

  function RunAll(x: Executor, cmds: seq<Command>, envs: seq<Env>): Executor
    requires |cmds| == |envs|
  {
    if cmds == [] then x
    else
      var n := |cmds| - 1;
      Run(RunAll(x, cmds[..n], envs[..n]), cmds[n], envs[n])
  }

  // ---- the node ----

  class TelemetryPublisher {
    const dedupEvictionS: int
    var seenCmds: map<CmdId, int>
    var ackQueue: seq<Ack>
    var cmdQueue: seq<Command>
    var activeGoal: Option<CmdId>
    var modeIdByName: map<string, int>
    var modeProcs: map<string, int>
    var sentAcks: seq<Ack>             // handed to the MQTT client
    var orders: seq<Order>             // published to other nodes
    var now: int                       // the steady clock
    ghost var admitted: seq<Admission>
    ghost var dispatched: seq<Command>
    ghost var awaitGoal: multiset<CmdId>
    ghost var awaitResult: multiset<CmdId>
    ghost var awaitCancel: multiset<CmdId>

    function Memory(): Memory
      reads this
    {
      Rover.Memory(activeGoal, modeIdByName, modeProcs)
    }

    ghost function Exec(): Executor
      reads this
    {
      Executor(Memory(), awaitGoal, awaitResult, awaitCancel, dispatched, sentAcks, orders)
    }

    ghost function Net(): Receiver
      reads this
    {
      Receiver(now, seenCmds, None, admitted)
    }

    function Queued(): Queues
      reads this
    {
      Queues(ackQueue, cmdQueue)
    }

    /** The state between callbacks. */
    ghost function Value(): State
      reads this
    {
      State(Net(), Queued(), EMPTY, Exec())
    }

    constructor (dedupEvictionS: int)
      ensures Value() == INITIAL && this.dedupEvictionS == dedupEvictionS
    {
      this.dedupEvictionS := dedupEvictionS;
      seenCmds, ackQueue, cmdQueue := map[], [], [];
      activeGoal, modeIdByName, modeProcs := None, map[], map[];
      sentAcks, orders, now := [], [], 0;
      admitted, dispatched := [], [];
      awaitGoal, awaitResult, awaitCancel := multiset{}, multiset{}, multiset{};
    }

    // ---- network thread ----

    method IsDuplicate(id: CmdId) returns (duplicate: bool)
      modifies this`seenCmds
      ensures duplicate <==> id in old(seenCmds)
      ensures seenCmds == if duplicate then old(seenCmds) else old(seenCmds)[id := now]
    {
      if id in seenCmds {
        return true;
      }
      seenCmds := seenCmds[id := now];
      return false;
    }

    method OnMqttMessage(msg: Option<Command>)
      modifies this`seenCmds, this`ackQueue, this`cmdQueue, this`admitted
      ensures Value() == From(dedupEvictionS, old(Value()), [Arrive(msg), Enqueue])
    {
      ArriveEnqueue(dedupEvictionS, Value(), msg);
      if msg.None? || msg.value.id.text == "" {
        return;
      }
      var cmd := msg.value;
      var duplicate := IsDuplicate(cmd.id);
      if duplicate {
        return;
      }
      admitted := admitted + [Admission(cmd, now)];
      ackQueue := ackQueue + [ReceivedAck(cmd)];
      cmdQueue := cmdQueue + [cmd];
    }

    // ---- timers ----

    method SweepSeen()
      modifies this`seenCmds
      ensures Value() == Step(dedupEvictionS, old(Value()), Sweep)
    {
      var rest := seenCmds.Keys;
      while rest != {}
        invariant rest <= seenCmds.Keys <= old(seenCmds).Keys
        invariant forall id :: id in seenCmds ==> seenCmds[id] == old(seenCmds)[id]
        invariant forall id :: id in old(seenCmds) && id !in rest ==>
                    (id in seenCmds <==> AgeSeconds(now, old(seenCmds)[id]) <= dedupEvictionS)
        decreases |rest|
      {
        var id :| id in rest;
        rest := rest - {id};
        if AgeSeconds(now, seenCmds[id]) > dedupEvictionS {
          seenCmds := seenCmds - {id};
        }
      }
      assert seenCmds == Swept(dedupEvictionS, now, old(seenCmds));
    }

    method Drain(envs: seq<Env>)
      requires |envs| == |cmdQueue|
      modifies this
      ensures Value() == From(dedupEvictionS, old(Value()), DrainEvents(|old(ackQueue)|, envs))
    {
      hide From, RunAll, SendAll, DrainEvents;
      ghost var s := Value();
      DrainIs(dedupEvictionS, s, envs);
      var acks, cmds := ackQueue, cmdQueue;
      ackQueue, cmdQueue := [], [];
      DrainBatch(acks, cmds, envs);
      assert Net() == s.receiver && Queued() == EMPTY;
    }

    method DrainBatch(acks: seq<Ack>, cmds: seq<Command>, envs: seq<Env>)
      requires |envs| == |cmds|
      modifies this`activeGoal, this`modeIdByName, this`modeProcs, this`sentAcks, this`orders, this`dispatched
      modifies this`awaitGoal, this`awaitCancel
      ensures Exec() == RunAll(SendAll(old(Exec()), acks), cmds, envs)
    {
      hide RunAll, SendAll;
      SendQueued(acks);
      DispatchQueued(cmds, envs);
    }

    method SendQueued(queue: seq<Ack>)
      modifies this`sentAcks
      ensures Exec() == SendAll(old(Exec()), queue)
    {
      var acks := queue;
      ghost var i := 0;
      while acks != []
        invariant 0 <= i <= |queue| && acks == queue[i..]
        invariant sentAcks == old(sentAcks) + queue[..i]
        decreases |acks|
      {
        var a := acks[0];
        SendAck(a.id, a.code, a.status);
        acks := acks[1..];
        i := i + 1;
      }
    }

    method DispatchQueued(queue: seq<Command>, envs: seq<Env>)
      requires |envs| == |queue|
      modifies this`activeGoal, this`modeIdByName, this`modeProcs, this`sentAcks, this`orders, this`dispatched
      modifies this`awaitGoal, this`awaitCancel
      ensures Exec() == RunAll(old(Exec()), queue, envs)
    {
      hide RunAll, Run;
      RunAllNone(Exec());
      var cmds, j := queue, 0;
      assert queue[..0] == [] && envs[..0] == [];
      while cmds != []
        invariant 0 <= j <= |envs| && cmds == queue[j..]
        invariant Exec() == RunAll(old(Exec()), queue[..j], envs[..j])
        decreases |cmds|
      {
        RunAllNext(old(Exec()), queue, envs, j);
        DispatchCommand(cmds[0], envs[j]);
        cmds := cmds[1..];
        j := j + 1;
      }
      assert queue[..j] == queue && envs[..j] == envs;
    }

    // ---- dispatch ----

    method SendAck(id: CmdId, code: int, status: int)
      modifies this`sentAcks
      ensures sentAcks == old(sentAcks) + [Ack(id, code, status)]
    {
      sentAcks := sentAcks + [Ack(id, code, status)];
    }

    method DispatchCommand(c: Command, env: Env)
      modifies this`activeGoal, this`modeIdByName, this`modeProcs, this`sentAcks, this`orders, this`dispatched
      modifies this`awaitGoal, this`awaitCancel
      ensures Exec() == Run(old(Exec()), c, env)
    {
      hide Rover.HandleNavGoal, Rover.HandleSetMode, Rover.HandleCancelGoal, Rover.HandleDrive, Rover.HandleRecord;
      hide Rover.HandleRegisterMode, Rover.HandleUnregisterMode, Run, Effect;
      ghost var x := Exec();
      RunIsEffect(x, c, env);
      dispatched := dispatched + [c];
      match c.code {
        case 1 => HandleNavGoal(c, env);
        case 2 => HandleArm(c);
        case 3 => HandleDisarm(c);
        case 4 => HandleSetMode(c);
        case 5 => HandleEstop(c);
        case 6 => HandleCancelGoal(c);
        case 8 => HandleDrive(c);
        case 9 => HandleRecord(c);
        case 10 => HandleRegisterMode(c, env);
        case 11 => HandleUnregisterMode(c, env);
        case _ => HandleUnknown(c);
      }
    }

    method Publish(order: Order)
      modifies this`orders
      ensures orders == old(orders) + [order]
    {
      orders := orders + [order];
    }

    method HandleUnknown(c: Command)
      modifies this`sentAcks
      ensures Exec() == Effect(old(Exec()), c, Says(ACK_REJECTED, old(Memory())))
    {
      assert orders + [] == orders;
      SendAck(c.id, c.code, ACK_REJECTED);
    }

    method HandleArm(c: Command)
      requires c.code == CMD_ARM
      modifies this`sentAcks, this`orders
      ensures Exec() == Effect(old(Exec()), c, Does(ACK_ACCEPTED, old(Memory()), [SetArmed(true)]))
    {
      Publish(SetArmed(true));
      SendAck(c.id, CMD_ARM, ACK_ACCEPTED);
    }

    method HandleDisarm(c: Command)
      requires c.code == CMD_DISARM
      modifies this`sentAcks, this`orders
      ensures Exec() == Effect(old(Exec()), c, Does(ACK_ACCEPTED, old(Memory()), [SetArmed(false)]))
    {
      Publish(SetArmed(false));
      SendAck(c.id, CMD_DISARM, ACK_ACCEPTED);
    }

    method HandleEstop(c: Command)
      requires c.code == CMD_ESTOP
      modifies this`sentAcks, this`orders
      ensures Exec() == Effect(old(Exec()), c, Does(ACK_COMPLETED, old(Memory()), [Move(Motion(0.0, 0.0)), SetArmed(false)]))
    {
      Publish(Move(Motion(0.0, 0.0)));
      Publish(SetArmed(false));
      SendAck(c.id, CMD_ESTOP, ACK_COMPLETED);
    }

    method HandleNavGoal(c: Command, env: Env)
      requires c.code == CMD_NAV_GOAL
      modifies this`sentAcks, this`orders, this`awaitGoal
      ensures Exec() == Effect(old(Exec()), c, Rover.HandleNavGoal(old(Memory()), c, env))
    {
      assert orders + [] == orders;
      if c.body.navGoal.None? {
        SendAck(c.id, CMD_NAV_GOAL, ACK_REJECTED);
        return;
      }
      if !env.serverUp {
        SendAck(c.id, CMD_NAV_GOAL, ACK_REJECTED);
        return;
      }
      if activeGoal.Some? {
        SendAck(c.id, CMD_NAV_GOAL, ACK_REJECTED);
        return;
      }
      Publish(RequestGoal(c.id, c.body.navGoal.value));
      awaitGoal := awaitGoal + multiset{c.id};
    }

    method HandleSetMode(c: Command)
      requires c.code == CMD_SET_MODE
      modifies this`sentAcks, this`orders
      ensures Exec() == Effect(old(Exec()), c, Rover.HandleSetMode(old(Memory()), c))
    {
      assert orders + [] == orders;
      if c.body.setMode.None? {
        SendAck(c.id, CMD_SET_MODE, ACK_REJECTED);
        return;
      }
      var mode := c.body.setMode.value;
      var navState := -1;
      var attempt := 0;
      while attempt < 8
        invariant 0 <= attempt <= 8
        invariant attempt > 0 ==> mode !in modeIdByName
        invariant navState == -1
      {
        if mode in modeIdByName {
          navState := modeIdByName[mode];
          break;
        }
        attempt := attempt + 1;
      }
      if navState < 0 {
        SendAck(c.id, CMD_SET_MODE, ACK_REJECTED);
        return;
      }
      Publish(SetNavState(navState));
      SendAck(c.id, CMD_SET_MODE, ACK_ACCEPTED);
    }

    method HandleCancelGoal(c: Command)
      requires c.code == CMD_CANCEL_GOAL
      modifies this`sentAcks, this`orders, this`awaitCancel
      ensures Exec() == Effect(old(Exec()), c, Rover.HandleCancelGoal(old(Memory())))
    {
      assert orders + [] == orders;
      if activeGoal.None? {
        SendAck(c.id, CMD_CANCEL_GOAL, ACK_REJECTED);
        return;
      }
      SendAck(c.id, CMD_CANCEL_GOAL, ACK_ACCEPTED);
      Publish(RequestCancel(activeGoal.value));
      awaitCancel := awaitCancel + multiset{c.id};
    }

    method HandleDrive(c: Command)
      requires c.code == CMD_DRIVE
      modifies this`sentAcks, this`orders
      ensures Exec() == Effect(old(Exec()), c, Rover.HandleDrive(old(Memory()), c))
    {
      assert orders + [] == orders;
      if c.body.drive.None? {
        SendAck(c.id, CMD_DRIVE, ACK_REJECTED);
        return;
      }
      Publish(Move(c.body.drive.value));
    }

    method HandleRecord(c: Command)
      requires c.code == CMD_RECORD
      modifies this`sentAcks, this`orders
      ensures Exec() == Effect(old(Exec()), c, Rover.HandleRecord(old(Memory()), c))
    {
      assert orders + [] == orders;
      hide RecordAction;
      if c.body.record.None? {
        SendAck(c.id, CMD_RECORD, ACK_REJECTED);
        return;
      }
      var action := c.body.record.value;
      if !RecordAction(action) {
        SendAck(c.id, CMD_RECORD, ACK_REJECTED);
        return;
      }
      Publish(ForwardRecord(action));
      SendAck(c.id, CMD_RECORD, ACK_ACCEPTED);
    }

    method HandleRegisterMode(c: Command, env: Env)
      requires c.code == CMD_REGISTER_MODE
      modifies this`sentAcks, this`modeProcs
      ensures Exec() == Effect(old(Exec()), c, Rover.HandleRegisterMode(old(Memory()), c, env))
    {
      assert orders + [] == orders;
      if c.body.registerMode.None? {
        SendAck(c.id, CMD_REGISTER_MODE, ACK_REJECTED);
        return;
      }
      var mode := c.body.registerMode.value;
      if mode !in KNOWN_MODES {
        SendAck(c.id, CMD_REGISTER_MODE, ACK_REJECTED);
        return;
      }
      if mode in modeProcs && modeProcs[mode] in env.alive {
        SendAck(c.id, CMD_REGISTER_MODE, ACK_REJECTED);
        return;
      }
      modeProcs := modeProcs - {mode};
      if env.found > 0 && env.found in env.alive {
        modeProcs := modeProcs[mode := env.found];
        assert modeProcs == old(modeProcs)[mode := env.found];
        SendAck(c.id, CMD_REGISTER_MODE, ACK_ACCEPTED);
        return;
      }
      var pid := env.forked;
      if pid < 0 {
        SendAck(c.id, CMD_REGISTER_MODE, ACK_FAILED);
        return;
      }
      modeProcs := modeProcs[mode := pid];
      assert modeProcs == old(modeProcs)[mode := pid];
      SendAck(c.id, CMD_REGISTER_MODE, ACK_ACCEPTED);
    }

    method HandleUnregisterMode(c: Command, env: Env)
      requires c.code == CMD_UNREGISTER_MODE
      modifies this`sentAcks, this`orders, this`modeProcs, this`modeIdByName
      ensures Exec() == Effect(old(Exec()), c, Rover.HandleUnregisterMode(old(Memory()), c, env))
    {
      assert orders + [] == orders;
      if c.body.unregisterMode.None? {
        SendAck(c.id, CMD_UNREGISTER_MODE, ACK_REJECTED);
        return;
      }
      var mode := c.body.unregisterMode.value;
      var pid := -1;
      if mode in modeProcs {
        pid := modeProcs[mode];
        modeProcs := modeProcs - {mode};
      }
      assert modeProcs == old(modeProcs) - {mode};
      if pid <= 0 {
        if mode in KNOWN_MODES {
          pid := env.found;
        }
      }
      if pid <= 0 {
        SendAck(c.id, CMD_UNREGISTER_MODE, ACK_REJECTED);
        return;
      }
      modeIdByName := modeIdByName - {mode};
      Publish(Terminate(pid));
      SendAck(c.id, CMD_UNREGISTER_MODE, ACK_ACCEPTED);
    }

    // ---- callbacks ----

    method OnGoalResponse(id: CmdId, accepted: bool)
      requires id in awaitGoal
      modifies this`activeGoal, this`sentAcks, this`awaitGoal, this`awaitResult
      ensures Exec() == GoalAnswered(old(Exec()), id, accepted)
    {
      ghost var x := Exec();
      awaitGoal := awaitGoal - multiset{id};
      if accepted {
        activeGoal := Some(id);
        awaitResult := awaitResult + multiset{id};
        SendAck(id, CMD_NAV_GOAL, ACK_ACCEPTED);
        assert awaitGoal == GoalAnswered(x, id, accepted).awaitGoal;
      } else {
        SendAck(id, CMD_NAV_GOAL, ACK_REJECTED);
      }
    }

    method OnGoalResult(id: CmdId, result: ResultCode)
      requires id in awaitResult
      modifies this`activeGoal, this`sentAcks, this`awaitResult
      ensures Exec() == GoalEnded(old(Exec()), id, result)
    {
      var status := ACK_FAILED;
      match result {
        case Succeeded => status := ACK_COMPLETED;
        case Aborted => status := ACK_FAILED;
        case Canceled => status := ACK_COMPLETED;
        case UnknownCode =>
      }
      awaitResult := awaitResult - multiset{id};
      activeGoal := None;
      SendAck(id, CMD_NAV_GOAL, status);
    }

    method OnCancelResponse(id: CmdId, canceling: bool)
      requires id in awaitCancel
      modifies this`sentAcks, this`awaitCancel
      ensures Exec() == CancelAnswered(old(Exec()), id, canceling)
    {
      awaitCancel := awaitCancel - multiset{id};
      if !canceling {
        SendAck(id, CMD_CANCEL_GOAL, ACK_FAILED);
        return;
      }
      SendAck(id, CMD_CANCEL_GOAL, ACK_COMPLETED);
    }

    method OnModeAnnounce(data: string)
      modifies this`modeIdByName
      ensures Value() == Step(dedupEvictionS, old(Value()), Announced(data))
    {
      modeIdByName := ModeAnnounce.OnAnnounce(modeIdByName, data);
    }
  }

  // ---- the steps the methods take ----

  lemma ArriveEnqueue(evictS: int, s: State, msg: Option<Command>)
    requires s.receiver.inFlight.None?
    ensures From(evictS, s, [Arrive(msg), Enqueue])
            == if Admits(s.receiver, msg)
               then s.(receiver := Admit(s.receiver, msg.value).(inFlight := None), queues := Push(s.queues, msg.value))
               else s
  {
    assert From(evictS, s, []) == s;
    FromAppend(evictS, s, [], Arrive(msg));
    assert [] + [Arrive(msg)] == [Arrive(msg)];
    FromAppend(evictS, s, [Arrive(msg)], Enqueue);
    assert [Arrive(msg)] + [Enqueue] == [Arrive(msg), Enqueue];
  }

  lemma FromSwap(evictS: int, s: State)
    requires s.batch == EMPTY
    ensures From(evictS, s, [Swap]) == State(s.receiver, EMPTY, s.queues, s.executor)
  {
    assert From(evictS, s, []) == s;
    FromAppend(evictS, s, [], Swap);
    assert [] + [Swap] == [Swap];
  }

  lemma {:induction false} FromConcat(evictS: int, s: State, es: seq<Event>, fs: seq<Event>)
    ensures From(evictS, s, es + fs) == From(evictS, From(evictS, s, es), fs)
  {
    hide Next;
    if fs == [] {
      assert es + fs == es;
    } else {
      assert (es + fs)[..|es + fs| - 1] == es + fs[..|fs| - 1];
      FromConcat(evictS, s, es, fs[..|fs| - 1]);
    }
  }

  lemma {:induction false} SendsAll(evictS: int, s: State, n: nat)
    requires n <= |s.batch.acks|
    ensures From(evictS, s, Repeat(SendReceived, n))
            == State(s.receiver, s.queues, Queues(s.batch.acks[n..], s.batch.cmds), SendAll(s.executor, s.batch.acks[..n]))
  {
    hide Run, Handle, Swept;
    if n == 0 {
      assert s.executor.acks + s.batch.acks[..0] == s.executor.acks;
      assert Repeat(SendReceived, 0) == [];
    } else {
      SendsAll(evictS, s, n - 1);
      assert Repeat(SendReceived, n) == Repeat(SendReceived, n - 1) + [SendReceived];
      FromAppend(evictS, s, Repeat(SendReceived, n - 1), SendReceived);
      assert s.batch.acks[..n] == s.batch.acks[..n - 1] + [s.batch.acks[n - 1]];
      assert s.executor.acks + s.batch.acks[..n] == s.executor.acks + s.batch.acks[..n - 1] + [s.batch.acks[n - 1]];
    }
  }

  lemma RunAllNone(x: Executor)
    ensures RunAll(x, [], []) == x
  {
  }

  lemma RunAllNext(x: Executor, cmds: seq<Command>, envs: seq<Env>, j: nat)
    requires j < |cmds| == |envs|
    ensures RunAll(x, cmds[..j + 1], envs[..j + 1]) == Run(RunAll(x, cmds[..j], envs[..j]), cmds[j], envs[j])
  {
    hide Run;
    assert cmds[..j + 1][..j] == cmds[..j] && envs[..j + 1][..j] == envs[..j];
  }

  lemma {:induction false} DispatchesAll(evictS: int, s: State, envs: seq<Env>, n: nat)
    requires s.batch.acks == [] && n <= |s.batch.cmds| == |envs|
    ensures From(evictS, s, Dispatches(envs[..n]))
            == State(s.receiver, s.queues, Queues([], s.batch.cmds[n..]), RunAll(s.executor, s.batch.cmds[..n], envs[..n]))
  {
    hide Run, Swept;
    if n == 0 {
      assert Dispatches(envs[..0]) == [];
    } else {
      DispatchesAll(evictS, s, envs, n - 1);
      assert Dispatches(envs[..n]) == Dispatches(envs[..n - 1]) + [Dispatch(envs[n - 1])];
      FromAppend(evictS, s, Dispatches(envs[..n - 1]), Dispatch(envs[n - 1]));
      RunAllNext(s.executor, s.batch.cmds, envs, n - 1);
    }
  }

  lemma DrainIs(evictS: int, s: State, envs: seq<Env>)
    requires s.batch == EMPTY && |envs| == |s.queues.cmds|
    ensures From(evictS, s, DrainEvents(|s.queues.acks|, envs))
            == State(s.receiver, EMPTY, EMPTY, RunAll(SendAll(s.executor, s.queues.acks), s.queues.cmds, envs))
  {
    hide From, RunAll, Step;
    var n := |s.queues.acks|;
    FromSwap(evictS, s);
    var s1 := State(s.receiver, EMPTY, s.queues, s.executor);
    FromConcat(evictS, s, [Swap], Repeat(SendReceived, n));
    SendsAll(evictS, s1, n);
    assert s.queues.acks[..n] == s.queues.acks;
    var s2 := State(s.receiver, EMPTY, Queues([], s.queues.cmds), SendAll(s.executor, s.queues.acks));
    FromConcat(evictS, s, [Swap] + Repeat(SendReceived, n), Dispatches(envs));
    DispatchesAll(evictS, s2, envs, |envs|);
    assert envs[..|envs|] == envs && s.queues.cmds[..|envs|] == s.queues.cmds;
    assert s.queues.acks[n..] == [] && s.queues.cmds[|envs|..] == [];
  }
}
