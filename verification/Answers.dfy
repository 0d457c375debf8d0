/** What the rover's acknowledgements say, over every run: which events each of them stands for. Command and status numbers are
    written out as they are on the wire. */
module Answers {
  import opened Options
  import opened Commands
  import opened Rover
  import Goals
  import Handoff
  import ModeAnnounce

  /** Event k of the run is e, and it can happen there. */
  ghost predicate OccursAt(evictS: int, es: seq<Event>, k: nat, e: Event)
    requires k < |es|
  {
    es[k] == e && Enabled(After(evictS, es[..k]), e)
  }

  ghost predicate Occurs(evictS: int, es: seq<Event>, e: Event) {
    exists k :: 0 <= k < |es| && OccursAt(evictS, es, k, e)
  }

  /** Event k of the run hands a command to its handler. */
  predicate Runs(evictS: int, es: seq<Event>, k: nat)
    requires k < |es|
  {
    es[k].Dispatch? && Enabled(After(evictS, es[..k]), es[k])
  }

  /** The command that event k hands over. */
  function Handed(evictS: int, es: seq<Event>, k: nat): Command
    requires k < |es| && Runs(evictS, es, k)
  {
    After(evictS, es[..k]).batch.cmds[0]
  }

  /** Event k of the run hands over a command with this id and number. */
  predicate RunsAs(evictS: int, es: seq<Event>, k: nat, id: CmdId, code: int)
    requires k < |es|
  {
    Runs(evictS, es, k) && Handed(evictS, es, k).id == id && Handed(evictS, es, k).code == code
  }

  ghost predicate Executed(evictS: int, es: seq<Event>, id: CmdId, code: int) {
    exists k :: 0 <= k < |es| && RunsAs(evictS, es, k, id, code)
  }

  // ---- which event sends an acknowledgement ----

  /** The event makes the rover send this acknowledgement, other than RECEIVED. */
  predicate Sends(s: State, e: Event, a: Ack) {
    && Enabled(s, e)
    && match e
       case Dispatch(env) =>
         var c := s.batch.cmds[0];
         c.id == a.id && c.code == a.code && Handle(s.executor.memory, c, env).ack == Some(a.status)
       case GoalResponse(id, accepted) => a == Ack(id, 1, if accepted then 1 else 2)
       case GoalResult(id, result) => a == Ack(id, 1, if result == Aborted || result == UnknownCode then 4 else 3)
       case CancelResponse(id, canceling) => a == Ack(id, 6, if canceling then 3 else 4)
       case _ => false
  }

  ghost predicate SendsAt(evictS: int, es: seq<Event>, k: nat, a: Ack)
    requires k < |es|
  {
    Sends(After(evictS, es[..k]), es[k], a)
  }

  lemma DispatchSends(evictS: int, s: State, env: Env, a: Ack)
    requires Enabled(s, Dispatch(env))
    ensures a in Step(evictS, s, Dispatch(env)).executor.acks <==> a in s.executor.acks || Sends(s, Dispatch(env), a)
  {
    hide Handle;
  }

  lemma CallbackSends(evictS: int, s: State, e: Event, a: Ack)
    requires Enabled(s, e) && (e.GoalResponse? || e.GoalResult? || e.CancelResponse?)
    ensures a in Step(evictS, s, e).executor.acks <==> a in s.executor.acks || Sends(s, e, a)
  {
    hide Run, Swept, Handle;
  }

  lemma ReceivedSends(evictS: int, s: State, a: Ack)
    requires Handoff.Inv(s) && s.batch.acks != [] && a.status != 0
    ensures a in Step(evictS, s, SendReceived).executor.acks <==> a in s.executor.acks
  {
    Handoff.SendsReceived(s);
    hide Handoff.Inv;
  }

  lemma SilentStep(evictS: int, s: State, e: Event, a: Ack)
    requires Enabled(s, e) && (e.Tick? || e.Arrive? || e.Enqueue? || e.Sweep? || e.Swap? || e.Announced?)
    ensures Step(evictS, s, e).executor.acks == s.executor.acks && !Sends(s, e, a)
  {
    hide Swept, ModeAnnounce.OnAnnounce, Push, Admits, Admit;
  }

  lemma StepSends(evictS: int, s: State, e: Event, a: Ack)
    requires Handoff.Inv(s) && a.status != 0
    ensures a in Next(evictS, s, e).executor.acks <==> a in s.executor.acks || Sends(s, e, a)
  {
    hide Step, Handoff.Inv, Handle;
    if Enabled(s, e) {
      match e
      case SendReceived => ReceivedSends(evictS, s, a);
      case Dispatch(env) => DispatchSends(evictS, s, env, a);
      case GoalResponse(_, _) => CallbackSends(evictS, s, e, a);
      case GoalResult(_, _) => CallbackSends(evictS, s, e, a);
      case CancelResponse(_, _) => CallbackSends(evictS, s, e, a);
      case _ => SilentStep(evictS, s, e, a);
    }
  }

  lemma SendsAtPrefix(evictS: int, es: seq<Event>, n: nat, k: nat, a: Ack)
    requires k < n <= |es|
    ensures SendsAt(evictS, es[..n], k, a) <==> SendsAt(evictS, es, k, a)
  {
    hide After, Sends;
    assert es[..n][..k] == es[..k];
  }

  lemma SendsAtEnd(evictS: int, es: seq<Event>, n: nat, a: Ack)
    requires n < |es|
    ensures SendsAt(evictS, es, n, a) <==> Sends(After(evictS, es[..n]), es[n], a)
  {
  }

  lemma {:induction false} SentExactly(evictS: int, es: seq<Event>, a: Ack)
    requires a.status != 0
    ensures a in After(evictS, es).executor.acks <==> exists k :: 0 <= k < |es| && SendsAt(evictS, es, k, a)
  {
    hide Next, Handoff.Inv, Sends, SendsAt;
    if es != [] {
      var n := |es| - 1;
      SentExactly(evictS, es[..n], a);
      Handoff.InvHolds(evictS, es[..n]);
      StepSends(evictS, After(evictS, es[..n]), es[n], a);
      forall k | 0 <= k < n ensures SendsAt(evictS, es[..n], k, a) <==> SendsAt(evictS, es, k, a) {
        SendsAtPrefix(evictS, es, n, k, a);
      }
      SendsAtEnd(evictS, es, n, a);
    }
  }

  // ---- goals ----

  /** Event k refuses to ask for the goal: the message has none, no server is up, or the last acceptance or result of a goal was
      an acceptance. */
  ghost predicate RefusesGoal(evictS: int, es: seq<Event>, k: nat, id: CmdId)
    requires k < |es|
  {
    && RunsAs(evictS, es, k, id, 1)
    && (Handed(evictS, es, k).body.navGoal.None? || !es[k].env.serverUp || Goals.LastAnswer(evictS, es[..k]) == Some(true))
  }

  lemma GoalSent(evictS: int, es: seq<Event>, k: nat, id: CmdId)
    requires k < |es|
    ensures SendsAt(evictS, es, k, Ack(id, 1, 1)) <==> OccursAt(evictS, es, k, GoalResponse(id, true))
    ensures SendsAt(evictS, es, k, Ack(id, 1, 2))
            <==> OccursAt(evictS, es, k, GoalResponse(id, false)) || RefusesGoal(evictS, es, k, id)
    ensures SendsAt(evictS, es, k, Ack(id, 1, 3))
            <==> OccursAt(evictS, es, k, GoalResult(id, Succeeded)) || OccursAt(evictS, es, k, GoalResult(id, Canceled))
    ensures SendsAt(evictS, es, k, Ack(id, 1, 4))
            <==> OccursAt(evictS, es, k, GoalResult(id, Aborted)) || OccursAt(evictS, es, k, GoalResult(id, UnknownCode))
  {
    Goals.RememberedExactly(evictS, es[..k]);
    hide After, Goals.LastAnswer;
  }

  /** In every run, late copies or not, a navigation goal is acknowledged ACCEPTED exactly if the server accepts it, COMPLETED
      exactly if it then succeeds or is canceled, FAILED exactly if it ends otherwise, and REJECTED exactly if the server refuses
      it or the handler never asks. */
  lemma GoalAnswers(evictS: int, es: seq<Event>, id: CmdId)
    ensures var acks := After(evictS, es).executor.acks;
            && (Ack(id, 1, 1) in acks <==> Occurs(evictS, es, GoalResponse(id, true)))
            && (Ack(id, 1, 2) in acks <==> Occurs(evictS, es, GoalResponse(id, false))
                                           || exists k :: 0 <= k < |es| && RefusesGoal(evictS, es, k, id))
            && (Ack(id, 1, 3) in acks <==> Occurs(evictS, es, GoalResult(id, Succeeded))
                                           || Occurs(evictS, es, GoalResult(id, Canceled)))
            && (Ack(id, 1, 4) in acks <==> Occurs(evictS, es, GoalResult(id, Aborted))
                                           || Occurs(evictS, es, GoalResult(id, UnknownCode)))
  {
    hide After, RefusesGoal, OccursAt, SendsAt;
    forall status | 1 <= status <= 4 {
      SentExactly(evictS, es, Ack(id, 1, status));
    }
    forall k | 0 <= k < |es| {
      GoalSent(evictS, es, k, id);
    }
  }

  // ---- cancels ----

  /** Event k runs a cancel command while a goal is remembered, or while none is. */
  ghost predicate Cancels(evictS: int, es: seq<Event>, k: nat, id: CmdId, remembered: bool)
    requires k < |es|
  {
    RunsAs(evictS, es, k, id, 6) && (Goals.LastAnswer(evictS, es[..k]) == Some(true) <==> remembered)
  }

  lemma CancelSent(evictS: int, es: seq<Event>, k: nat, id: CmdId)
    requires k < |es|
    ensures SendsAt(evictS, es, k, Ack(id, 6, 1)) <==> Cancels(evictS, es, k, id, true)
    ensures SendsAt(evictS, es, k, Ack(id, 6, 2)) <==> Cancels(evictS, es, k, id, false)
    ensures SendsAt(evictS, es, k, Ack(id, 6, 3)) <==> OccursAt(evictS, es, k, CancelResponse(id, true))
    ensures SendsAt(evictS, es, k, Ack(id, 6, 4)) <==> OccursAt(evictS, es, k, CancelResponse(id, false))
  {
    Goals.RememberedExactly(evictS, es[..k]);
    hide After, Goals.LastAnswer;
  }

  /** In every run a cancel is acknowledged ACCEPTED exactly if it runs while a goal is remembered and REJECTED exactly if it runs
      while none is; COMPLETED and FAILED are what the action server answered. */
  lemma CancelAnswers(evictS: int, es: seq<Event>, id: CmdId)
    ensures var acks := After(evictS, es).executor.acks;
            && (Ack(id, 6, 1) in acks <==> exists k :: 0 <= k < |es| && Cancels(evictS, es, k, id, true))
            && (Ack(id, 6, 2) in acks <==> exists k :: 0 <= k < |es| && Cancels(evictS, es, k, id, false))
            && (Ack(id, 6, 3) in acks <==> Occurs(evictS, es, CancelResponse(id, true)))
            && (Ack(id, 6, 4) in acks <==> Occurs(evictS, es, CancelResponse(id, false)))
  {
    hide After, Cancels, OccursAt, SendsAt;
    forall status | 1 <= status <= 4 {
      SentExactly(evictS, es, Ack(id, 6, status));
    }
    forall k | 0 <= k < |es| {
      CancelSent(evictS, es, k, id);
    }
  }

  // ---- commands with one answer ----

  /** The one answer these commands get. */
  function OnlyAnswer(code: int): Option<int> {
    if code == 2 || code == 3 then Some(1)
    else if code == 5 then Some(3)
    else if code in {1, 4, 6, 8, 9, 10, 11} then None
    else Some(2)
  }

  lemma OnlyAnswerSent(evictS: int, es: seq<Event>, k: nat, a: Ack)
    requires k < |es| && OnlyAnswer(a.code).Some?
    ensures SendsAt(evictS, es, k, a) <==> a.status == OnlyAnswer(a.code).value && RunsAs(evictS, es, k, a.id, a.code)
  {
    hide After;
  }

  /** In every run and every state of the rover, arming and disarming (2 and 3) are acknowledged ACCEPTED, the emergency stop
      (5) COMPLETED and unknown commands REJECTED, exactly if they run, and never anything else but RECEIVED. */
  lemma OnlyAnswers(evictS: int, es: seq<Event>, a: Ack)
    requires a.status != 0 && OnlyAnswer(a.code).Some?
    ensures a in After(evictS, es).executor.acks
            <==> a.status == OnlyAnswer(a.code).value && Executed(evictS, es, a.id, a.code)
  {
    hide After, SendsAt, RunsAs, OnlyAnswer;
    SentExactly(evictS, es, a);
    forall k | 0 <= k < |es| {
      OnlyAnswerSent(evictS, es, k, a);
    }
  }

  // ---- driving and recording ----

  /** Event k runs a drive command without its part. */
  predicate DrivesNothing(evictS: int, es: seq<Event>, k: nat, id: CmdId)
    requires k < |es|
  {
    RunsAs(evictS, es, k, id, 8) && Handed(evictS, es, k).body.drive.None?
  }

  /** Event k runs a record command, with an action the rover knows or without. */
  predicate Records(evictS: int, es: seq<Event>, k: nat, id: CmdId, known: bool)
    requires k < |es|
  {
    && RunsAs(evictS, es, k, id, 9)
    && var action := Handed(evictS, es, k).body.record;
    && (action == Some("start") || action == Some("stop") || action == Some("toggle") <==> known)
  }

  lemma RecordSent(evictS: int, es: seq<Event>, k: nat, id: CmdId, status: int)
    requires k < |es|
    ensures SendsAt(evictS, es, k, Ack(id, 8, status)) <==> status == 2 && DrivesNothing(evictS, es, k, id)
    ensures SendsAt(evictS, es, k, Ack(id, 9, status))
            <==> (status == 1 && Records(evictS, es, k, id, true)) || (status == 2 && Records(evictS, es, k, id, false))
  {
    hide After;
  }

  /** In every run, driving (8) is acknowledged only if the message has nothing to drive with, and recording (9) ACCEPTED exactly
      for start, stop and toggle. */
  lemma RecordAnswers(evictS: int, es: seq<Event>, id: CmdId, status: int)
    requires status != 0
    ensures var acks := After(evictS, es).executor.acks;
            && (Ack(id, 8, status) in acks <==> status == 2 && exists k :: 0 <= k < |es| && DrivesNothing(evictS, es, k, id))
            && (Ack(id, 9, status) in acks
                <==> || (status == 1 && exists k :: 0 <= k < |es| && Records(evictS, es, k, id, true))
                     || (status == 2 && exists k :: 0 <= k < |es| && Records(evictS, es, k, id, false)))
  {
    hide After, SendsAt, DrivesNothing, Records;
    SentExactly(evictS, es, Ack(id, 8, status));
    SentExactly(evictS, es, Ack(id, 9, status));
    forall k | 0 <= k < |es| {
      RecordSent(evictS, es, k, id, status);
    }
  }
}
