/** A copy of a command that arrives after its dedup entry was evicted is what breaks the acknowledgement grammar. */
module LateCopies {
  import opened Options
  import opened Commands
  import opened Rover
  import opened AckGrammar
  import opened RoverRuns
  import Dedup
  import Handoff
  import ModeProcesses

  // ---- exactly then ----

  lemma {:induction false} FiltersCommute(acks: seq<Ack>, id: CmdId)
    ensures Handoff.ReceivedOf(Trail(acks, id)) == Trail(Handoff.ReceivedOf(acks), id)
  {
    if acks != [] {
      var l, rest := acks[|acks| - 1], acks[..|acks| - 1];
      hide Trail, Handoff.ReceivedOf;
      FiltersCommute(rest, id);
      assert acks == rest + [l];
      TrailAppend(rest, l, id);
      TrailAppend(Handoff.ReceivedOf(rest), l, id);
      Handoff.ReceivedOfAppend(rest, l);
      Handoff.ReceivedOfAppend(Trail(rest, id), l);
      assert Handoff.ReceivedOf(rest) + [] == Handoff.ReceivedOf(rest);
      assert Handoff.ReceivedOf(Trail(rest, id)) + [] == Handoff.ReceivedOf(Trail(rest, id));
    }
  }

  lemma {:induction false} TrailOfReceiveds(cs: seq<Command>, id: CmdId)
    ensures Trail(Handoff.Receiveds(cs), id) == Handoff.Receiveds(Of(cs, id))
  {
    if cs != [] {
      var l, rest := cs[|cs| - 1], cs[..|cs| - 1];
      assert Handoff.Receiveds([l]) == [ReceivedAck(l)];
      hide Trail, Of, Handoff.Receiveds;
      TrailOfReceiveds(rest, id);
      assert cs == rest + [l];
      Handoff.ReceivedsAppend(rest, [l]);
      TrailAppend(Handoff.Receiveds(rest), ReceivedAck(l), id);
      OfSnoc(rest, l, id);
      Handoff.ReceivedsAppend(Of(rest, id), [l]);
    }
  }

  lemma TwiceIn(cs: seq<Command>, i: nat, j: nat)
    requires i < j < |cs| && cs[i].id == cs[j].id
    ensures |Of(cs, cs[i].id)| >= 2
  {
    assert cs == cs[..j] + cs[j..];
    OfAppend(cs[..j], cs[j..], cs[i].id);
    assert cs[..j][i] == cs[i] && cs[j..][0] == cs[j];
    OfMember(cs[..j], cs[i]);
    OfMember(cs[j..], cs[j]);
  }

  lemma OneReceived(c: Command, h: seq<Ack>)
    requires WellFormed(c, h)
    ensures |Handoff.ReceivedOf(h)| <= 1
  {
    if h != [] {
      assert h[..1] == [h[0]] && [h[0]][..0] == [];
      if |h| > 1 {
        assert h[..2][..1] == h[..1];
        if |h| > 2 {
          assert h[..3][..2] == h[..2] && h[..3] == h;
        } else {
          assert h[..2] == h;
        }
      }
    }
  }

  lemma ReceivedPerAdmission(s: State, id: CmdId)
    requires Handoff.Inv(s) && Drained(s)
    ensures |Handoff.ReceivedOf(Trail(s.executor.acks, id))| == |Of(Handoff.Cmds(s.receiver.admitted), id)|
  {
    hide Of, Trail, Handoff.ReceivedOf, Handoff.Cmds;
    assert Handoff.Acked(s.batch) == s.batch.cmds;
    assert Handoff.Cmds(s.receiver.admitted) == s.executor.dispatched + s.batch.cmds;
    FiltersCommute(s.executor.acks, id);
    TrailOfReceiveds(s.executor.dispatched + s.batch.cmds, id);
  }

  /** In a drained state the trails of all admitted commands have the grammar exactly if no copy is heard late. */
  lemma GrammarExactly(evictS: int, es: seq<Event>)
    requires Drained(After(evictS, es))
    ensures var s := After(evictS, es);
            (forall c :: c in Handoff.Cmds(s.receiver.admitted) ==> WellFormed(c, Trail(s.executor.acks, c.id)))
            <==> Dedup.NoLateCopy(evictS, es)
  {
    hide After, Of, Trail, Handoff.ReceivedOf, WellFormed, Dedup.NoLateCopy, Handoff.Inv;
    var s := After(evictS, es);
    var a := s.receiver.admitted;
    Dedup.AdmittedOnceExactly(evictS, es);
    if Dedup.NoLateCopy(evictS, es) {
      forall c | c in Handoff.Cmds(a) ensures WellFormed(c, Trail(s.executor.acks, c.id)) {
        Grammar(evictS, es, c);
      }
    } else {
      var i, j :| 0 <= i < j < |a| && a[i].cmd.id == a[j].cmd.id;
      var c := Handoff.Cmds(a)[i];
      Handoff.InvHolds(evictS, es);
      ReceivedPerAdmission(s, c.id);
      TwiceIn(Handoff.Cmds(a), i, j);
      if WellFormed(c, Trail(s.executor.acks, c.id)) {
        OneReceived(c, Trail(s.executor.acks, c.id));
      }
    }
  }

  // ---- a late copy ----

  const EVICT_S := 30
  const MODE := "RoverManual"

  /** A registration whose fork fails, and 31 s and a sweep later a copy of it whose fork succeeds. */
  function LateRun(id: CmdId): seq<Event> {
    Handled(ModeProcesses.Registration(id, MODE), Env(true, {}, 0, -1))
    + [Tick(31 * SECOND)] + [Sweep]
    + Handled(ModeProcesses.Registration(id, MODE), Env(true, {}, 0, 7))
  }

  /** The command is executed twice and gets two contradicting final acknowledgements. */
  lemma LateCopyTwoFinals(id: CmdId)
    requires id.text != ""
    ensures var c := ModeProcesses.Registration(id, MODE);
            && After(EVICT_S, LateRun(id)).executor.acks
               == [Reply(c, ACK_RECEIVED), Reply(c, ACK_FAILED), Reply(c, ACK_RECEIVED), Reply(c, ACK_ACCEPTED)]
            && IsFinal(c.code, ACK_FAILED) && IsFinal(c.code, ACK_ACCEPTED)
  {
    hide Handle, After, Push;
    var c := ModeProcesses.Registration(id, MODE);
    var env0, env1 := Env(true, {}, 0, -1), Env(true, {}, 0, 7);
    var es0 := Handled(c, env0);
    AfterNone(EVICT_S);
    AfterHandled(EVICT_S, [], c, env0);
    assert [] + es0 == es0;
    var s := After(EVICT_S, es0);
    AfterAppend(EVICT_S, es0, Tick(31 * SECOND));
    AfterAppend(EVICT_S, es0 + [Tick(31 * SECOND)], Sweep);
    var es1 := es0 + [Tick(31 * SECOND)] + [Sweep];
    assert id !in After(EVICT_S, es1).receiver.seen;
    AfterHandled(EVICT_S, es1, c, env1);
    ForkOutcomes(INITIAL.executor.memory, c, env0, env1);
  }

  lemma ForkOutcomes(m: Memory, c: Command, env0: Env, env1: Env)
    requires c == ModeProcesses.Registration(c.id, MODE) && m.procs == map[]
    requires env0 == Env(true, {}, 0, -1) && env1 == Env(true, {}, 0, 7)
    ensures Handle(m, c, env0) == Says(ACK_FAILED, m)
    ensures Handle(m, c, env1).ack == Some(ACK_ACCEPTED)
  {
    assert m.procs - {MODE} == m.procs;
  }
}
