/** The hand-off from the network thread to the executor is one first-in-first-out pipeline. */
module Handoff {
  import opened Options
  import opened Commands
  import opened Rover

  function Cmds(a: seq<Admission>): seq<Command> {
    seq(|a|, i requires 0 <= i < |a| => a[i].cmd)
  }

  function Receiveds(cs: seq<Command>): seq<Ack> {
    seq(|cs|, i requires 0 <= i < |cs| => ReceivedAck(cs[i]))
  }

  /** The RECEIVED acknowledgements among those sent, in order. */
  function ReceivedOf(acks: seq<Ack>): seq<Ack> {
    if acks == [] then []
    else
      var l := acks[|acks| - 1];
      ReceivedOf(acks[..|acks| - 1]) + if l.status == ACK_RECEIVED then [l] else []
  }

  function InFlight(r: Receiver): seq<Command> {
    if r.inFlight.Some? then [r.inFlight.value] else []
  }

  /** The swapped-out commands whose RECEIVED acknowledgement is sent. */
  function Acked(batch: Queues): seq<Command>
    requires |batch.acks| <= |batch.cmds|
  {
    batch.cmds[..|batch.cmds| - |batch.acks|]
  }

  // ---- invariants ----

  /** Everything admitted is dispatched or on its way, in order. */
  ghost predicate Pipeline(s: State) {
    Cmds(s.receiver.admitted) == s.executor.dispatched + s.batch.cmds + s.queues.cmds + InFlight(s.receiver)
  }

  /** The two queues carry the same commands, and so does what is left of a batch. */
  ghost predicate Paired(s: State) {
    && s.queues.acks == Receiveds(s.queues.cmds)
    && |s.batch.acks| <= |s.batch.cmds|
    && s.batch.acks == Receiveds(s.batch.cmds[|s.batch.cmds| - |s.batch.acks|..])
  }

  ghost predicate AcksSent(s: State)
    requires Paired(s)
  {
    ReceivedOf(s.executor.acks) == Receiveds(s.executor.dispatched + Acked(s.batch))
  }

  ghost predicate Inv(s: State) {
    Pipeline(s) && Paired(s) && AcksSent(s)
  }

  // ---- sequences ----

  lemma ReceivedsAppend(a: seq<Command>, b: seq<Command>)
    ensures Receiveds(a + b) == Receiveds(a) + Receiveds(b)
  {
  }

  lemma CmdsAppend(a: seq<Admission>, l: Admission)
    ensures Cmds(a + [l]) == Cmds(a) + [l.cmd]
  {
  }

  lemma ReceivedOfAppend(acks: seq<Ack>, l: Ack)
    ensures ReceivedOf(acks + [l]) == ReceivedOf(acks) + if l.status == ACK_RECEIVED then [l] else []
  {
    assert (acks + [l])[..|acks|] == acks;
  }

  lemma {:induction false} ReceivedOfMember(acks: seq<Ack>, a: Ack)
    ensures a in ReceivedOf(acks) <==> a in acks && a.status == ACK_RECEIVED
  {
    if acks != [] {
      var l := acks[|acks| - 1];
      ReceivedOfMember(acks[..|acks| - 1], a);
      assert acks == acks[..|acks| - 1] + [l];
    }
  }

  // ---- steps ----

  /** A handler's own acknowledgement is never RECEIVED. */
  lemma RunAnnouncesNothing(x: Executor, c: Command, env: Env)
    ensures ReceivedOf(Run(x, c, env).acks) == ReceivedOf(x.acks)
  {
    hide Handle;
    HandleConforms(x.memory, c, env);
    var o := Handle(x.memory, c, env);
    if o.ack.Some? {
      ReceivedOfAppend(x.acks, Ack(c.id, c.code, o.ack.value));
    }
  }

  lemma StepEnqueue(s: State)
    requires Inv(s) && s.receiver.inFlight.Some?
    ensures Inv(Step(0, s, Enqueue))
  {
    hide ReceivedOf;
    ReceivedsAppend(s.queues.cmds, [s.receiver.inFlight.value]);
  }

  lemma StepSwap(s: State)
    requires Inv(s) && s.batch == EMPTY
    ensures Inv(Step(0, s, Swap))
  {
    hide ReceivedOf;
    var t := Step(0, s, Swap);
    assert t.batch.cmds[|t.batch.cmds| - |t.batch.acks|..] == s.queues.cmds;
    assert Acked(t.batch) == [] == Acked(s.batch);
  }

  /** The tail of the acknowledgements belongs to the tail of the commands. */
  lemma ReceivedsTail(cs: seq<Command>, n: nat)
    requires n < |cs|
    ensures Receiveds(cs[n..])[0] == ReceivedAck(cs[n])
    ensures Receiveds(cs[n..])[1..] == Receiveds(cs[n + 1..])
  {
  }

  lemma SendPaired(s: State)
    requires Paired(s) && s.batch.acks != []
    ensures var c := s.batch.cmds[|s.batch.cmds| - |s.batch.acks|];
            var t := Step(0, s, SendReceived);
            s.batch.acks[0] == ReceivedAck(c) && Paired(t) && Acked(t.batch) == Acked(s.batch) + [c]
  {
    ReceivedsTail(s.batch.cmds, |s.batch.cmds| - |s.batch.acks|);
    hide Receiveds;
  }

  lemma SendAcksSent(s: State)
    requires Paired(s) && AcksSent(s) && s.batch.acks != []
    requires Paired(Step(0, s, SendReceived))
    requires s.batch.acks[0].status == ACK_RECEIVED
    requires var t := Step(0, s, SendReceived);
             Receiveds(s.executor.dispatched + Acked(t.batch))
             == Receiveds(s.executor.dispatched + Acked(s.batch)) + [s.batch.acks[0]]
    ensures AcksSent(Step(0, s, SendReceived))
  {
    hide ReceivedOf, Receiveds, Paired, Acked;
    ReceivedOfAppend(s.executor.acks, s.batch.acks[0]);
  }

  lemma StepSend(s: State)
    requires Inv(s) && s.batch.acks != []
    ensures Inv(Step(0, s, SendReceived))
  {
    var t := Step(0, s, SendReceived);
    var c := s.batch.cmds[|s.batch.cmds| - |s.batch.acks|];
    var front := s.executor.dispatched + Acked(s.batch);
    SendPaired(s);
    ReceivedsAppend(front, [c]);
    assert Receiveds([c]) == [ReceivedAck(c)];
    hide ReceivedOf, Receiveds, Paired, AcksSent, Acked;
    assert s.executor.dispatched + Acked(t.batch) == front + [c];
    SendAcksSent(s);
  }

  lemma StepDispatch(s: State, env: Env)
    requires Inv(s) && s.batch.acks == [] && s.batch.cmds != []
    ensures Inv(Step(0, s, Dispatch(env)))
  {
    hide ReceivedOf, Handle;
    var t := Step(0, s, Dispatch(env));
    var c := s.batch.cmds[0];
    RunAnnouncesNothing(s.executor, c, env);
    assert s.batch.cmds == [c] + t.batch.cmds;
    assert s.executor.dispatched + s.batch.cmds == t.executor.dispatched + t.batch.cmds;
    assert Acked(s.batch) == s.batch.cmds && Acked(t.batch) == t.batch.cmds;
  }

  lemma CallbackAnnouncesNothing(x: Executor, x': Executor, a: Ack)
    requires a.status != ACK_RECEIVED && x'.acks == x.acks + [a]
    ensures ReceivedOf(x'.acks) == ReceivedOf(x.acks)
  {
    ReceivedOfAppend(x.acks, a);
  }

  lemma StepCallback(s: State, e: Event)
    requires Inv(s) && Enabled(s, e) && (e.GoalResponse? || e.GoalResult? || e.CancelResponse? || e.Announced?)
    ensures Inv(Step(0, s, e))
  {
    hide Inv, ReceivedOf, ModeAnnounce.OnAnnounce;
    var t := Step(0, s, e);
    if !e.Announced? {
      CallbackAnnouncesNothing(s.executor, t.executor, t.executor.acks[|t.executor.acks| - 1]);
    }
    SameAnnouncements(s, t);
  }

  lemma SameAnnouncements(s: State, t: State)
    requires Inv(s) && t == s.(executor := t.executor) && t.executor.dispatched == s.executor.dispatched
    requires ReceivedOf(t.executor.acks) == ReceivedOf(s.executor.acks)
    ensures Inv(t)
  {
    hide ReceivedOf;
  }

  lemma StepReceiver(evictS: int, s: State, e: Event)
    requires Inv(s) && Enabled(s, e) && (e.Arrive? || e.Tick? || e.Sweep?)
    ensures Inv(Step(evictS, s, e))
  {
    hide ReceivedOf, Swept, Receiveds, Cmds;
    if e.Arrive? && Admits(s.receiver, e.msg) {
      CmdsAppend(s.receiver.admitted, Admission(e.msg.value, s.receiver.now));
    }
  }

  lemma InvStep(evictS: int, s: State, e: Event)
    requires Inv(s) && Enabled(s, e)
    ensures Inv(Step(evictS, s, e))
  {
    hide Inv, Swept, Run;
    match e
    case Enqueue => StepEnqueue(s);
    case Swap => StepSwap(s);
    case SendReceived => StepSend(s);
    case Dispatch(env) => StepDispatch(s, env);
    case Tick(_) => StepReceiver(evictS, s, e);
    case Arrive(_) => StepReceiver(evictS, s, e);
    case Sweep => StepReceiver(evictS, s, e);
    case _ => StepCallback(s, e);
  }

  lemma {:induction false} InvHolds(evictS: int, es: seq<Event>)
    ensures Inv(After(evictS, es))
  {
    if es != [] {
      hide Inv, Step;
      InvHolds(evictS, es[..|es| - 1]);
      var s, e := After(evictS, es[..|es| - 1]), es[|es| - 1];
      if Enabled(s, e) {
        InvStep(evictS, s, e);
      }
    }
  }

  // ---- what it means ----

  /** However receiving, swapping and draining interleave: commands are dispatched in the order of their admission, none
      skipped or repeated; the two queues carry the same commands; and the RECEIVED acknowledgements go out in the same
      order, one for each admission, never behind the dispatch. */
  lemma FirstInFirstOut(evictS: int, es: seq<Event>)
    ensures var s := After(evictS, es);
            && s.executor.dispatched <= Cmds(s.receiver.admitted)
            && Cmds(s.receiver.admitted) == s.executor.dispatched + s.batch.cmds + s.queues.cmds + InFlight(s.receiver)
            && s.queues.acks == Receiveds(s.queues.cmds)
            && ReceivedOf(s.executor.acks) <= Receiveds(Cmds(s.receiver.admitted))
            && |s.executor.dispatched| <= |ReceivedOf(s.executor.acks)|
  {
    hide After;
    InvHolds(evictS, es);
    AcksInOrder(After(evictS, es));
  }

  lemma AcksInOrder(s: State)
    requires Inv(s)
    ensures ReceivedOf(s.executor.acks) <= Receiveds(Cmds(s.receiver.admitted))
    ensures |s.executor.dispatched| <= |ReceivedOf(s.executor.acks)|
  {
    hide ReceivedOf, Cmds, Receiveds;
    var d, a := s.executor.dispatched, Acked(s.batch);
    var rest := s.batch.cmds[|a|..] + s.queues.cmds + InFlight(s.receiver);
    assert Cmds(s.receiver.admitted) == d + a + rest by {
      assert s.batch.cmds == a + s.batch.cmds[|a|..];
    }
    ReceivedsPrefix(d + a, rest);
  }

  lemma ReceivedsPrefix(a: seq<Command>, b: seq<Command>)
    ensures Receiveds(a) <= Receiveds(a + b) && |Receiveds(a)| == |a|
  {
    ReceivedsAppend(a, b);
  }

  // ---- RECEIVED first ----

  /** Each acknowledgement is preceded by a RECEIVED acknowledgement of the same command. */
  ghost predicate Preceded(acks: seq<Ack>) {
    forall k :: 0 <= k < |acks| && acks[k].status != ACK_RECEIVED ==>
      Ack(acks[k].id, acks[k].code, ACK_RECEIVED) in acks[..k]
  }

  ghost predicate AllReceived(ids: multiset<CmdId>, code: int, acks: seq<Ack>) {
    forall id :: id in ids ==> Ack(id, code, ACK_RECEIVED) in acks
  }

  ghost predicate WaitingReceived(x: Executor) {
    && AllReceived(x.awaitGoal, CMD_NAV_GOAL, x.acks)
    && AllReceived(x.awaitResult, CMD_NAV_GOAL, x.acks)
    && AllReceived(x.awaitCancel, CMD_CANCEL_GOAL, x.acks)
  }

  lemma PrecededAppend(acks: seq<Ack>, a: Ack)
    requires Preceded(acks) && (a.status == ACK_RECEIVED || Ack(a.id, a.code, ACK_RECEIVED) in acks)
    ensures Preceded(acks + [a])
  {
    var b := acks + [a];
    forall k | 0 <= k < |b| && b[k].status != ACK_RECEIVED ensures Ack(b[k].id, b[k].code, ACK_RECEIVED) in b[..k] {
      if k < |acks| {
        assert b[..k] == acks[..k];
      } else {
        assert b[..k] == acks;
      }
    }
  }

  lemma AllReceivedMore(ids: multiset<CmdId>, code: int, acks: seq<Ack>, a: Ack)
    requires AllReceived(ids, code, acks)
    ensures AllReceived(ids, code, acks + [a])
  {
  }

  lemma WaitingReceivedMore(x: Executor, a: Ack)
    requires WaitingReceived(x)
    ensures WaitingReceived(Send(x, a))
  {
    hide AllReceived;
    AllReceivedMore(x.awaitGoal, CMD_NAV_GOAL, x.acks, a);
    AllReceivedMore(x.awaitResult, CMD_NAV_GOAL, x.acks, a);
    AllReceivedMore(x.awaitCancel, CMD_CANCEL_GOAL, x.acks, a);
  }

  lemma AllReceivedIds(ids: multiset<CmdId>, code: int, acks: seq<Ack>, id: CmdId)
    requires AllReceived(ids, code, acks)
    ensures AllReceived(ids - multiset{id}, code, acks)
    ensures Ack(id, code, ACK_RECEIVED) in acks ==> AllReceived(ids + multiset{id}, code, acks)
  {
  }

  lemma ReceivedRun(x: Executor, c: Command, env: Env)
    requires Preceded(x.acks) && WaitingReceived(x) && ReceivedAck(c) in x.acks
    ensures Preceded(Run(x, c, env).acks) && WaitingReceived(Run(x, c, env))
  {
    hide Handle, Preceded, AllReceived;
    HandleConforms(x.memory, c, env);
    var o := Handle(x.memory, c, env);
    AllReceivedIds(x.awaitGoal, CMD_NAV_GOAL, x.acks, c.id);
    AllReceivedIds(x.awaitCancel, CMD_CANCEL_GOAL, x.acks, c.id);
    if o.ack.Some? {
      var a := Ack(c.id, c.code, o.ack.value);
      PrecededAppend(x.acks, a);
      AllReceivedMore(Run(x, c, env).awaitGoal, CMD_NAV_GOAL, x.acks, a);
      AllReceivedMore(x.awaitResult, CMD_NAV_GOAL, x.acks, a);
      AllReceivedMore(Run(x, c, env).awaitCancel, CMD_CANCEL_GOAL, x.acks, a);
    }
  }

  /** A callback for a waiting id sends one more acknowledgement and stops waiting. */
  lemma ReceivedCallback(x: Executor, x': Executor, a: Ack)
    requires Preceded(x.acks) && WaitingReceived(x)
    requires x'.acks == x.acks + [a] && Ack(a.id, a.code, ACK_RECEIVED) in x.acks
    requires x'.awaitGoal == x.awaitGoal || x'.awaitGoal == x.awaitGoal - multiset{a.id}
    requires x'.awaitCancel == x.awaitCancel || x'.awaitCancel == x.awaitCancel - multiset{a.id}
    requires || x'.awaitResult == x.awaitResult
             || x'.awaitResult == x.awaitResult - multiset{a.id}
             || (x'.awaitResult == x.awaitResult + multiset{a.id} && a.code == CMD_NAV_GOAL)
    ensures Preceded(x'.acks) && WaitingReceived(x')
  {
    hide Preceded, AllReceived;
    PrecededAppend(x.acks, a);
    AllReceivedIds(x.awaitGoal, CMD_NAV_GOAL, x.acks, a.id);
    AllReceivedIds(x.awaitResult, CMD_NAV_GOAL, x.acks, a.id);
    AllReceivedIds(x.awaitCancel, CMD_CANCEL_GOAL, x.acks, a.id);
    AllReceivedMore(x'.awaitGoal, CMD_NAV_GOAL, x.acks, a);
    AllReceivedMore(x'.awaitResult, CMD_NAV_GOAL, x.acks, a);
    AllReceivedMore(x'.awaitCancel, CMD_CANCEL_GOAL, x.acks, a);
  }

  lemma WaitingIsReceived(x: Executor, id: CmdId)
    requires WaitingReceived(x)
    ensures id in x.awaitGoal || id in x.awaitResult ==> Ack(id, CMD_NAV_GOAL, ACK_RECEIVED) in x.acks
    ensures id in x.awaitCancel ==> Ack(id, CMD_CANCEL_GOAL, ACK_RECEIVED) in x.acks
  {
  }

  lemma ReceivedAnswer(s: State, e: Event)
    requires Preceded(s.executor.acks) && WaitingReceived(s.executor)
    requires Enabled(s, e) && (e.GoalResponse? || e.GoalResult? || e.CancelResponse?)
    ensures Preceded(Step(0, s, e).executor.acks) && WaitingReceived(Step(0, s, e).executor)
  {
    hide Preceded, WaitingReceived, Run, Swept;
    var x' := Step(0, s, e).executor;
    WaitingIsReceived(s.executor, e.id);
    ReceivedCallback(s.executor, x', x'.acks[|x'.acks| - 1]);
  }

  /** In a drained batch the head's RECEIVED acknowledgement has been sent. */
  lemma HeadReceived(s: State)
    requires Inv(s) && s.batch.acks == [] && s.batch.cmds != []
    ensures ReceivedAck(s.batch.cmds[0]) in s.executor.acks
  {
    hide ReceivedOf;
    var cs := s.executor.dispatched + Acked(s.batch);
    assert Acked(s.batch) == s.batch.cmds;
    assert Receiveds(cs)[|s.executor.dispatched|] == ReceivedAck(s.batch.cmds[0]);
    ReceivedOfMember(s.executor.acks, ReceivedAck(s.batch.cmds[0]));
  }

  /** In every run, each acknowledgement of a command's handler or callbacks is preceded by that command's RECEIVED. */
  lemma {:induction false} ReceivedFirst(evictS: int, es: seq<Event>)
    ensures Preceded(After(evictS, es).executor.acks) && WaitingReceived(After(evictS, es).executor)
  {
    if es != [] {
      hide Inv, Preceded, WaitingReceived, Run, Swept;
      ReceivedFirst(evictS, es[..|es| - 1]);
      InvHolds(evictS, es[..|es| - 1]);
      var s, e := After(evictS, es[..|es| - 1]), es[|es| - 1];
      if Enabled(s, e) {
        if e.SendReceived? {
          SendsReceived(s);
          PrecededAppend(s.executor.acks, s.batch.acks[0]);
          WaitingReceivedMore(s.executor, s.batch.acks[0]);
        } else if e.Dispatch? {
          HeadReceived(s);
          ReceivedRun(s.executor, s.batch.cmds[0], e.env);
        } else if e.Announced? {
          WaitingIgnoresMemory(s.executor, Step(evictS, s, e).executor.memory);
        } else if e.GoalResponse? || e.GoalResult? || e.CancelResponse? {
          ReceivedAnswer(s, e);
        }
      }
    }
  }

  lemma SendsReceived(s: State)
    requires Inv(s) && s.batch.acks != []
    ensures s.batch.acks[0].status == ACK_RECEIVED
  {
    hide ReceivedOf;
    assert s.batch.acks[0] == ReceivedAck(s.batch.cmds[|s.batch.cmds| - |s.batch.acks|]);
  }

  lemma WaitingIgnoresMemory(x: Executor, m: Memory)
    requires WaitingReceived(x)
    ensures WaitingReceived(x.(memory := m))
  {
  }
}
