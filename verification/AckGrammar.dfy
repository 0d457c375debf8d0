/** What the acknowledgements of one command look like, over every run of the rover. */
module AckGrammar {
  import opened Options
  import opened Commands
  import opened Rover
  import Dedup
  import Handoff

  /** The commands with this id, in order. */
  function Of(cs: seq<Command>, id: CmdId): (r: seq<Command>)
    ensures forall c :: c in r ==> c.id == id
  {
    if cs == [] then []
    else
      var l := cs[|cs| - 1];
      Of(cs[..|cs| - 1], id) + if l.id == id then [l] else []
  }

  /** The acknowledgements with this id, in the order sent. */
  function Trail(acks: seq<Ack>, id: CmdId): seq<Ack> {
    if acks == [] then []
    else
      var l := acks[|acks| - 1];
      Trail(acks[..|acks| - 1], id) + if l.id == id then [l] else []
  }

  function Reply(c: Command, status: int): Ack {
    Ack(c.id, c.code, status)
  }

  /** RECEIVED, then the final acknowledgement; for the two-stage commands with an ACCEPTED in between. */
  ghost predicate Complete(c: Command, h: seq<Ack>) {
    && |h| >= 2
    && var f := h[|h| - 1].status;
    && IsFinal(c.code, f)
    && (h == [Reply(c, ACK_RECEIVED), Reply(c, f)]
        || (TwoStage(c.code) && h == [Reply(c, ACK_RECEIVED), Reply(c, ACK_ACCEPTED), Reply(c, f)]))
  }

  /** The start of a complete trail. */
  ghost predicate Partial(c: Command, h: seq<Ack>) {
    || h == []
    || h == [Reply(c, ACK_RECEIVED)]
    || (TwoStage(c.code) && h == [Reply(c, ACK_RECEIVED), Reply(c, ACK_ACCEPTED)])
  }

  ghost predicate WellFormed(c: Command, h: seq<Ack>) {
    Partial(c, h) || Complete(c, h)
  }

  // ---- filters ----

  lemma {:induction false} OfAppend(a: seq<Command>, b: seq<Command>, id: CmdId)
    ensures Of(a + b, id) == Of(a, id) + Of(b, id)
  {
    if b == [] {
      assert a + b == a;
    } else {
      var n := |b| - 1;
      assert (a + b)[..|a + b| - 1] == a + b[..n];
      OfAppend(a, b[..n], id);
    }
  }

  lemma OfSnoc(a: seq<Command>, c: Command, id: CmdId)
    ensures Of(a + [c], id) == if c.id == id then Of(a, id) + [c] else Of(a, id)
  {
    assert (a + [c])[..|a|] == a;
  }

  lemma OfCons(c: Command, b: seq<Command>, id: CmdId)
    ensures Of([c] + b, id) == if c.id == id then [c] + Of(b, id) else Of(b, id)
  {
    OfAppend([c], b, id);
    OfSnoc([], c, id);
    assert [] + [c] == [c];
  }

  lemma TrailAppend(acks: seq<Ack>, l: Ack, id: CmdId)
    ensures Trail(acks + [l], id) == if l.id == id then Trail(acks, id) + [l] else Trail(acks, id)
  {
    assert (acks + [l])[..|acks|] == acks;
  }

  lemma {:induction false} TrailMember(acks: seq<Ack>, a: Ack)
    ensures a in Trail(acks, a.id) <==> a in acks
  {
    if acks != [] {
      var n := |acks| - 1;
      TrailMember(acks[..n], a);
      assert acks == acks[..n] + [acks[n]];
    }
  }

  lemma {:induction false} OfMember(cs: seq<Command>, c: Command)
    ensures c in cs <==> c in Of(cs, c.id)
  {
    if cs != [] {
      var n := |cs| - 1;
      OfMember(cs[..n], c);
      assert cs == cs[..n] + [cs[n]];
    }
  }

  lemma {:induction false} AtMostOne(a: seq<Admission>, id: CmdId)
    requires Dedup.DistinctIds(a)
    ensures |Of(Handoff.Cmds(a), id)| <= 1
  {
    if a != [] {
      var n := |a| - 1;
      assert Handoff.Cmds(a)[..n] == Handoff.Cmds(a[..n]);
      AtMostOne(a[..n], id);
      if a[n].cmd.id == id {
        OthersNone(a[..n], id);
      }
    }
  }

  lemma {:induction false} OthersNone(a: seq<Admission>, id: CmdId)
    requires forall k :: 0 <= k < |a| ==> a[k].cmd.id != id
    ensures Of(Handoff.Cmds(a), id) == []
  {
    if a != [] {
      var n := |a| - 1;
      assert Handoff.Cmds(a)[..n] == Handoff.Cmds(a[..n]);
      OthersNone(a[..n], id);
    }
  }

  // ---- the phases of one command ----

  /** Outstanding callbacks of an id. */
  datatype Open = Open(goal: nat, result: nat, cancel: nat)

  const NONE_OPEN := Open(0, 0, 0)

  function OpenOf(x: Executor, id: CmdId): Open {
    Open(x.awaitGoal[id], x.awaitResult[id], x.awaitCancel[id])
  }

  /** A dispatched command waits for one callback, or its trail is complete; drive may stay silent. */
  ghost predicate Dispatched(c: Command, h: seq<Ack>, o: Open) {
    || (o == Open(1, 0, 0) && c.code == CMD_NAV_GOAL && h == [Reply(c, ACK_RECEIVED)])
    || (o == Open(0, 1, 0) && c.code == CMD_NAV_GOAL && h == [Reply(c, ACK_RECEIVED), Reply(c, ACK_ACCEPTED)])
    || (o == Open(0, 0, 1) && c.code == CMD_CANCEL_GOAL && h == [Reply(c, ACK_RECEIVED), Reply(c, ACK_ACCEPTED)])
    || (o == NONE_OPEN && Complete(c, h))
    || (o == NONE_OPEN && c.code == CMD_DRIVE && h == [Reply(c, ACK_RECEIVED)])
  }

  /** The trail of an id, given its dispatched command and its acknowledged command of the current batch. */
  ghost predicate Phase(dispatched: seq<Command>, announced: seq<Command>, h: seq<Ack>, o: Open) {
    if |dispatched| == 1 && announced == [] then Dispatched(dispatched[0], h, o)
    else
      && dispatched == []
      && |announced| <= 1
      && h == Handoff.Receiveds(announced)
      && o == NONE_OPEN
  }

  ghost predicate PhaseOf(s: State, id: CmdId) {
    && |s.batch.acks| <= |s.batch.cmds|
    && Phase(Of(s.executor.dispatched, id), Of(Handoff.Acked(s.batch), id),
             Trail(s.executor.acks, id), OpenOf(s.executor, id))
  }

  /** An id occurs at most once among dispatched and swapped-out commands. */
  ghost predicate Single(s: State, id: CmdId) {
    |Of(s.executor.dispatched, id)| + |Of(s.batch.cmds, id)| <= 1
  }

  lemma OfPipeline(s: State, id: CmdId)
    requires Handoff.Pipeline(s)
    ensures Of(Handoff.Cmds(s.receiver.admitted), id)
            == Of(s.executor.dispatched, id) + Of(s.batch.cmds, id) + Of(s.queues.cmds, id)
               + Of(Handoff.InFlight(s.receiver), id)
  {
    hide Of, Handoff.Cmds;
    var front := s.executor.dispatched + s.batch.cmds;
    OfAppend(s.executor.dispatched, s.batch.cmds, id);
    OfAppend(front, s.queues.cmds, id);
    OfAppend(front + s.queues.cmds, Handoff.InFlight(s.receiver), id);
  }

  lemma SingleHolds(evictS: int, es: seq<Event>, id: CmdId)
    requires Dedup.NoLateCopy(evictS, es)
    ensures Single(After(evictS, es), id)
  {
    hide After, Of, Dedup.NoLateCopy, Dedup.DistinctIds, Handoff.Cmds;
    var s := After(evictS, es);
    Dedup.AdmittedOnceExactly(evictS, es);
    AtMostOne(s.receiver.admitted, id);
    Handoff.InvHolds(evictS, es);
    OfPipeline(s, id);
  }

  // ---- steps ----

  lemma PhaseAnnounced(d: seq<Command>, a: seq<Command>, h: seq<Ack>, o: Open, c: Command)
    requires Phase(d, a, h, o) && d == a == []
    ensures Phase(d, a + [c], h + [ReceivedAck(c)], o)
  {
    assert a + [c] == [c] && h + [ReceivedAck(c)] == [ReceivedAck(c)] == Handoff.Receiveds([c]);
  }

  lemma PhaseSend(s: State, id: CmdId)
    requires Handoff.Inv(s) && Single(s, id) && PhaseOf(s, id) && s.batch.acks != []
    ensures PhaseOf(Step(0, s, SendReceived), id)
  {
    hide Handoff.ReceivedOf, Phase, Of, Trail;
    var t := Step(0, s, SendReceived);
    var n := |s.batch.cmds| - |s.batch.acks|;
    var c := s.batch.cmds[n];
    assert s.batch.acks[0] == ReceivedAck(c);
    assert Handoff.Acked(t.batch) == Handoff.Acked(s.batch) + [c];
    assert s.batch.cmds == Handoff.Acked(s.batch) + [c] + s.batch.cmds[n + 1..];
    hide Handoff.Inv, Handoff.Receiveds;
    OfSnoc(Handoff.Acked(s.batch), c, id);
    OfAppend(Handoff.Acked(s.batch) + [c], s.batch.cmds[n + 1..], id);
    TrailAppend(s.executor.acks, ReceivedAck(c), id);
    if c.id == id {
      PhaseAnnounced(Of(s.executor.dispatched, id), Of(Handoff.Acked(s.batch), id), Trail(s.executor.acks, id),
                     OpenOf(s.executor, id), c);
    }
  }

  /** The handler of a command whose trail is [RECEIVED]. */
  lemma PhaseRun(x: Executor, c: Command, env: Env)
    requires Trail(x.acks, c.id) == [Reply(c, ACK_RECEIVED)] && OpenOf(x, c.id) == NONE_OPEN
    ensures var x' := Run(x, c, env); Dispatched(c, Trail(x'.acks, c.id), OpenOf(x', c.id))
  {
    hide Handle, Trail;
    HandleConforms(x.memory, c, env);
    var o := Handle(x.memory, c, env);
    if o.ack.Some? {
      TrailAppend(x.acks, Reply(c, o.ack.value), c.id);
      assert Trail(x.acks, c.id) + [Reply(c, o.ack.value)] == [Reply(c, ACK_RECEIVED), Reply(c, o.ack.value)];
    }
  }

  lemma RunElsewhere(x: Executor, c: Command, env: Env, id: CmdId)
    requires c.id != id
    ensures var x' := Run(x, c, env); Trail(x'.acks, id) == Trail(x.acks, id) && OpenOf(x', id) == OpenOf(x, id)
  {
    hide Handle, Trail;
    var o := Handle(x.memory, c, env);
    if o.ack.Some? {
      TrailAppend(x.acks, Reply(c, o.ack.value), id);
    }
  }

  lemma PhaseDispatch(s: State, env: Env, id: CmdId)
    requires Single(s, id) && PhaseOf(s, id) && s.batch.acks == [] && s.batch.cmds != []
    ensures PhaseOf(Step(0, s, Dispatch(env)), id)
  {
    hide Run, Phase, Of, Trail;
    var t := Step(0, s, Dispatch(env));
    var c := s.batch.cmds[0];
    assert s.batch.cmds == [c] + t.batch.cmds;
    assert Handoff.Acked(s.batch) == s.batch.cmds && Handoff.Acked(t.batch) == t.batch.cmds;
    OfCons(c, t.batch.cmds, id);
    DispatchedIs(s.executor, c, env);
    OfSnoc(s.executor.dispatched, c, id);
    if c.id == id {
      OwnDispatch(s.executor, c, env, Of(t.batch.cmds, id));
    } else {
      RunElsewhere(s.executor, c, env, id);
    }
  }

  lemma OwnDispatch(x: Executor, c: Command, env: Env, rest: seq<Command>)
    requires Of(x.dispatched, c.id) == [] && rest == []
    requires Phase([], [c] + rest, Trail(x.acks, c.id), OpenOf(x, c.id))
    ensures Phase([] + [c], rest, Trail(Run(x, c, env).acks, c.id), OpenOf(Run(x, c, env), c.id))
  {
    hide Run, Trail, Dispatched;
    assert [c] + rest == [c];
    assert Handoff.Receiveds([c]) == [Reply(c, ACK_RECEIVED)];
    PhaseRun(x, c, env);
  }

  lemma DispatchedIs(x: Executor, c: Command, env: Env)
    ensures Run(x, c, env).dispatched == x.dispatched + [c]
  {
    hide Handle;
  }

  /** The waiting command's state after its callback. */
  lemma Answered(c: Command, x: Executor, x': Executor, a: Ack, e: Event)
    requires Dispatched(c, Trail(x.acks, a.id), OpenOf(x, a.id)) && c.id == a.id
    requires x'.acks == x.acks + [a]
    requires || (e.GoalResponse? && e.id == a.id && e.id in x.awaitGoal && x' == GoalAnswered(x, a.id, e.accepted))
             || (e.GoalResult? && e.id == a.id && e.id in x.awaitResult && x' == GoalEnded(x, a.id, e.result))
             || (e.CancelResponse? && e.id == a.id && e.id in x.awaitCancel && x' == CancelAnswered(x, a.id, e.canceling))
    ensures Dispatched(c, Trail(x'.acks, a.id), OpenOf(x', a.id))
  {
    TrailAppend(x.acks, a, a.id);
    hide Trail;
    assert x'.acks[|x.acks|] == a;
    var received, accepted := Reply(c, ACK_RECEIVED), Reply(c, ACK_ACCEPTED);
    assert [received] + [a] == [received, a];
    assert [received, accepted] + [a] == [received, accepted, a];
  }

  /** What a callback changes of the rover: one more acknowledgement, and which callbacks of its id are outstanding. */
  lemma AnswerStep(s: State, e: Event, id: CmdId)
    requires Enabled(s, e) && (e.GoalResponse? || e.GoalResult? || e.CancelResponse?)
    ensures var x, t := s.executor, Step(0, s, e);
            && t.batch == s.batch && t.executor.dispatched == x.dispatched
            && |t.executor.acks| == |x.acks| + 1 && t.executor.acks == x.acks + [t.executor.acks[|x.acks|]]
            && t.executor.acks[|x.acks|].id == e.id
            && (id != e.id ==> OpenOf(t.executor, id) == OpenOf(x, id))
            && (e.GoalResponse? ==> t.executor == GoalAnswered(x, e.id, e.accepted))
            && (e.GoalResult? ==> t.executor == GoalEnded(x, e.id, e.result))
            && (e.CancelResponse? ==> t.executor == CancelAnswered(x, e.id, e.canceling))
  {
    hide Run, Swept, Handle, Push;
  }

  lemma PhaseAnswer(s: State, e: Event, id: CmdId)
    requires PhaseOf(s, id)
    requires Enabled(s, e) && (e.GoalResponse? || e.GoalResult? || e.CancelResponse?)
    ensures PhaseOf(Step(0, s, e), id)
  {
    hide Step, Of, Trail, Handoff.Receiveds, Dispatched, GoalAnswered, GoalEnded, CancelAnswered;
    AnswerStep(s, e, id);
    var x, x' := s.executor, Step(0, s, e).executor;
    var a := x'.acks[|x.acks|];
    if e.id == id {
      Waits(s, e);
      Answered(Of(x.dispatched, id)[0], x, x', a, e);
    } else {
      TrailAppend(x.acks, a, id);
    }
  }

  /** Only a dispatched command waits for a callback. */
  lemma Waits(s: State, e: Event)
    requires e.GoalResponse? || e.GoalResult? || e.CancelResponse?
    requires PhaseOf(s, e.id) && Enabled(s, e)
    ensures |Of(s.executor.dispatched, e.id)| == 1 && Of(Handoff.Acked(s.batch), e.id) == []
  {
    hide Of, Trail, Handoff.Receiveds, Dispatched;
  }

  lemma PhaseElsewhere(evictS: int, s: State, e: Event, id: CmdId)
    requires Handoff.Inv(s) && PhaseOf(s, id) && Enabled(s, e)
    requires e.Tick? || e.Arrive? || e.Enqueue? || e.Sweep? || e.Swap? || e.Announced?
    ensures PhaseOf(Step(evictS, s, e), id)
  {
    hide Phase, Swept, ModeAnnounce.OnAnnounce, Of, Trail, Handoff.ReceivedOf;
    if e.Swap? {
      assert Handoff.Acked(s.batch) == [] == Handoff.Acked(s.queues);
    }
  }
  lemma PhaseStep(evictS: int, s: State, e: Event, id: CmdId)
    requires Handoff.Inv(s) && Single(s, id) && PhaseOf(s, id) && Enabled(s, e)
    ensures PhaseOf(Step(evictS, s, e), id)
  {
    hide PhaseOf, Single, Handoff.Inv, Run, Swept;
    match e
    case SendReceived => PhaseSend(s, id);
    case Dispatch(env) => PhaseDispatch(s, env, id);
    case GoalResponse(_, _) => PhaseAnswer(s, e, id);
    case GoalResult(_, _) => PhaseAnswer(s, e, id);
    case CancelResponse(_, _) => PhaseAnswer(s, e, id);
    case _ => PhaseElsewhere(evictS, s, e, id);
  }

  lemma {:induction false} PhaseHolds(evictS: int, es: seq<Event>, id: CmdId)
    requires Dedup.NoLateCopy(evictS, es)
    ensures PhaseOf(After(evictS, es), id)
  {
    if es == [] {
      assert Handoff.Acked(EMPTY) == [];
    } else {
      hide PhaseOf, Single, Handoff.Inv, Step, Enabled, Dedup.NoLateCopy;
      var s, e := After(evictS, es[..|es| - 1]), es[|es| - 1];
      Dedup.NoLateCopyPrefix(evictS, es, |es| - 1);
      PhaseHolds(evictS, es[..|es| - 1], id);
      if Enabled(s, e) {
        SingleHolds(evictS, es[..|es| - 1], id);
        Handoff.InvHolds(evictS, es[..|es| - 1]);
        PhaseStep(evictS, s, e, id);
      }
    }
  }

  // ---- the grammar ----

  /** The one command of its id. */
  lemma OnlyOne(evictS: int, es: seq<Event>, c: Command)
    requires Dedup.NoLateCopy(evictS, es)
    requires c in Handoff.Cmds(After(evictS, es).receiver.admitted)
    ensures var s := After(evictS, es);
            && |s.batch.acks| <= |s.batch.cmds|
            && Of(s.executor.dispatched, c.id) <= [c]
            && Of(Handoff.Acked(s.batch), c.id) <= [c]
  {
    hide After, Of, Dedup.NoLateCopy, Dedup.DistinctIds, Handoff.Cmds, Handoff.AcksSent;
    var s := After(evictS, es);
    var all := Handoff.Cmds(s.receiver.admitted);
    Dedup.AdmittedOnceExactly(evictS, es);
    AtMostOne(s.receiver.admitted, c.id);
    OfMember(all, c);
    assert Of(all, c.id) == [c];
    Handoff.InvHolds(evictS, es);
    OfPipeline(s, c.id);
    var n := |Handoff.Acked(s.batch)|;
    assert s.batch.cmds == Handoff.Acked(s.batch) + s.batch.cmds[n..];
    OfAppend(Handoff.Acked(s.batch), s.batch.cmds[n..], c.id);
    Part(Of(s.executor.dispatched, c.id), Of(Handoff.Acked(s.batch), c.id), Of(s.batch.cmds[n..], c.id),
         Of(s.queues.cmds, c.id) + Of(Handoff.InFlight(s.receiver), c.id), c);
  }

  lemma Part(a: seq<Command>, b: seq<Command>, d: seq<Command>, e: seq<Command>, c: Command)
    requires a + (b + d) + e == [c]
    ensures a <= [c] && b <= [c]
  {
    var all := a + (b + d) + e;
    assert a != [] ==> all[0] == a[0];
    assert b != [] ==> all[|a|] == b[0];
  }

  /** In every run without a late copy, the acknowledgements of each admitted command are RECEIVED, then for nav_goal and
      cancel_goal perhaps a non-final ACCEPTED, then at most one final acknowledgement. */
  lemma Grammar(evictS: int, es: seq<Event>, c: Command)
    requires Dedup.NoLateCopy(evictS, es)
    requires c in Handoff.Cmds(After(evictS, es).receiver.admitted)
    ensures WellFormed(c, Trail(After(evictS, es).executor.acks, c.id))
  {
    hide After, Of, Trail, Dedup.NoLateCopy, Handoff.Cmds, Complete;
    PhaseHolds(evictS, es, c.id);
    OnlyOne(evictS, es, c);
  }

  /** A dispatched command without outstanding callbacks has its final acknowledgement; only drive may have none. */
  lemma DispatchedIsAnswered(evictS: int, es: seq<Event>, c: Command)
    requires Dedup.NoLateCopy(evictS, es)
    requires c in After(evictS, es).executor.dispatched && OpenOf(After(evictS, es).executor, c.id) == NONE_OPEN
    ensures c.code == CMD_DRIVE || Complete(c, Trail(After(evictS, es).executor.acks, c.id))
  {
    hide After, Of, Trail, Dedup.NoLateCopy, Complete;
    PhaseHolds(evictS, es, c.id);
    OfMember(After(evictS, es).executor.dispatched, c);
  }

  /** Nobody else is acknowledged. */
  lemma OnlyAdmittedAcked(evictS: int, es: seq<Event>, a: Ack)
    requires Dedup.NoLateCopy(evictS, es) && a in After(evictS, es).executor.acks
    ensures exists c :: c in Handoff.Cmds(After(evictS, es).receiver.admitted) && c.id == a.id && c.code == a.code
  {
    hide After, Of, Trail, Dedup.NoLateCopy, Handoff.Cmds, Handoff.AcksSent;
    var s := After(evictS, es);
    PhaseHolds(evictS, es, a.id);
    TrailMember(s.executor.acks, a);
    Handoff.InvHolds(evictS, es);
    var front := s.executor.dispatched + s.batch.cmds;
    if Of(s.executor.dispatched, a.id) != [] {
      var c := Of(s.executor.dispatched, a.id)[0];
      OfMember(s.executor.dispatched, c);
      assert c in front + s.queues.cmds + Handoff.InFlight(s.receiver);
    } else {
      var c := Of(Handoff.Acked(s.batch), a.id)[0];
      OfMember(Handoff.Acked(s.batch), c);
      assert c in front + s.queues.cmds + Handoff.InFlight(s.receiver);
    }
  }

  lemma FinalIsLast(c: Command, h: seq<Ack>, k: nat)
    requires WellFormed(c, h) && k < |h| && IsFinal(c.code, h[k].status)
    ensures k == |h| - 1
  {
  }

  /** A command has one final acknowledgement. */
  lemma OneFinalAck(evictS: int, es: seq<Event>, a: Ack, b: Ack)
    requires Dedup.NoLateCopy(evictS, es)
    requires a in After(evictS, es).executor.acks && b in After(evictS, es).executor.acks
    requires a.id == b.id && IsFinal(a.code, a.status) && IsFinal(b.code, b.status)
    ensures a == b
  {
    hide After, Of, Trail, Dedup.NoLateCopy, Handoff.Cmds, WellFormed, IsFinal;
    var s := After(evictS, es);
    OnlyAdmittedAcked(evictS, es, a);
    var c :| c in Handoff.Cmds(s.receiver.admitted) && c.id == a.id && c.code == a.code;
    Grammar(evictS, es, c);
    TrailMember(s.executor.acks, a);
    TrailMember(s.executor.acks, b);
    var h := Trail(s.executor.acks, a.id);
    var i :| 0 <= i < |h| && h[i] == a;
    var j :| 0 <= j < |h| && h[j] == b;
    CodesAgree(c, h, j);
    FinalIsLast(c, h, i);
    FinalIsLast(c, h, j);
  }

  lemma CodesAgree(c: Command, h: seq<Ack>, k: nat)
    requires WellFormed(c, h) && k < |h|
    ensures h[k].code == c.code
  {
  }
}
