/** Navigation goals in flight, and what the rover remembers of them. The goal handle is stored when the server has answered
    a request, so a second goal can be requested before the first one is known. */
module Goals {
  import opened Options
  import opened Commands
  import opened Rover
  import RoverRuns

  /** Goals requested or running. */
  function InFlight(x: Executor): nat {
    |x.awaitGoal| + |x.awaitResult|
  }

  /** The remembered goal is still running. */
  ghost predicate ActiveRuns(x: Executor) {
    x.memory.activeGoal.Some? ==> x.memory.activeGoal.value in x.awaitResult
  }

  /** A goal is remembered exactly while one is running: new goals are refused and cancels sent exactly then. */
  predicate Remembered(x: Executor) {
    x.memory.activeGoal.Some? <==> x.awaitResult != multiset{}
  }

  /** A goal is requested while the answer to another request is outstanding. */
  predicate EarlyGoal(s: State, e: Event) {
    && e.Dispatch?
    && Enabled(s, e)
    && Handle(s.executor.memory, s.batch.cmds[0], e.env).waiting.ForGoal?
    && s.executor.awaitGoal != multiset{}
  }

  ghost predicate NoEarlyGoal(evictS: int, es: seq<Event>) {
    es == [] || (NoEarlyGoal(evictS, es[..|es| - 1]) && !EarlyGoal(After(evictS, es[..|es| - 1]), es[|es| - 1]))
  }

  // ---- steps ----

  lemma HandleKeepsGoal(m: Memory, c: Command, env: Env)
    ensures var o := Handle(m, c, env);
            o.memory.activeGoal == m.activeGoal && (o.waiting.ForGoal? ==> m.activeGoal.None?)
  {
  }

  lemma AddOne(a: multiset<CmdId>, id: CmdId)
    ensures |a + multiset{id}| == |a| + 1 && a + multiset{id} != multiset{}
    ensures id in a ==> |a - multiset{id}| == |a| - 1
  {
  }

  lemma ActiveRunsStep(evictS: int, s: State, e: Event)
    requires ActiveRuns(s.executor) && Enabled(s, e)
    ensures ActiveRuns(Step(evictS, s, e).executor)
  {
    hide Handle, Swept;
    if e.Dispatch? {
      HandleKeepsGoal(s.executor.memory, s.batch.cmds[0], e.env);
    }
  }

  /** In every run, the goal the rover would cancel is one whose result is outstanding. */
  lemma {:induction false} CancelsOnlyRunning(evictS: int, es: seq<Event>)
    ensures ActiveRuns(After(evictS, es).executor)
  {
    if es != [] {
      hide ActiveRuns, Step, Enabled;
      CancelsOnlyRunning(evictS, es[..|es| - 1]);
      if Enabled(After(evictS, es[..|es| - 1]), es[|es| - 1]) {
        ActiveRunsStep(evictS, After(evictS, es[..|es| - 1]), es[|es| - 1]);
      }
    }
  }

  lemma GoalDispatch(s: State, env: Env)
    requires InFlight(s.executor) <= 1 && Remembered(s.executor) && Enabled(s, Dispatch(env))
    ensures var x := Run(s.executor, s.batch.cmds[0], env);
            && (EarlyGoal(s, Dispatch(env)) <==> InFlight(x) > 1)
            && Remembered(x)
  {
    hide Handle;
    HandleKeepsGoal(s.executor.memory, s.batch.cmds[0], env);
    AddOne(s.executor.awaitGoal, s.batch.cmds[0].id);
  }

  lemma GoalCallback(x: Executor, e: Event)
    requires InFlight(x) <= 1 && Remembered(x)
    ensures e.GoalResponse? && e.id in x.awaitGoal ==>
              InFlight(GoalAnswered(x, e.id, e.accepted)) <= 1 && Remembered(GoalAnswered(x, e.id, e.accepted))
    ensures e.GoalResult? && e.id in x.awaitResult ==>
              InFlight(GoalEnded(x, e.id, e.result)) <= 1 && Remembered(GoalEnded(x, e.id, e.result))
  {
    if e.GoalResponse? && e.id in x.awaitGoal {
      AddOne(x.awaitGoal, e.id);
      AddOne(x.awaitResult, e.id);
    } else if e.GoalResult? && e.id in x.awaitResult {
      AddOne(x.awaitResult, e.id);
      assert |x.awaitResult - multiset{e.id}| == 0;
    }
  }

  /** Other events leave the goals alone. */
  lemma GoalsElsewhere(evictS: int, s: State, e: Event)
    requires Enabled(s, e) && !e.Dispatch? && !e.GoalResponse? && !e.GoalResult?
    ensures var x, x' := s.executor, Step(evictS, s, e).executor;
            x'.awaitGoal == x.awaitGoal && x'.awaitResult == x.awaitResult && x'.memory.activeGoal == x.memory.activeGoal
  {
    hide Run, Swept;
  }

  lemma GoalStep(evictS: int, s: State, e: Event)
    requires InFlight(s.executor) <= 1 && Remembered(s.executor) && Enabled(s, e)
    ensures var x := Step(evictS, s, e).executor;
            && (EarlyGoal(s, e) <==> InFlight(x) > 1)
            && Remembered(x)
  {
    hide Handle, Run, GoalAnswered, GoalEnded, Swept;
    match e
    case Dispatch(env) => GoalDispatch(s, env);
    case GoalResponse(_, _) => GoalCallback(s.executor, e);
    case GoalResult(_, _) => GoalCallback(s.executor, e);
    case _ => GoalsElsewhere(evictS, s, e);
  }

  // ---- runs ----

  lemma {:induction false} OneAtATime(evictS: int, es: seq<Event>)
    requires NoEarlyGoal(evictS, es)
    ensures InFlight(After(evictS, es).executor) <= 1 && Remembered(After(evictS, es).executor)
  {
    if es != [] {
      hide InFlight, Remembered, EarlyGoal, Step, Enabled;
      OneAtATime(evictS, es[..|es| - 1]);
      if Enabled(After(evictS, es[..|es| - 1]), es[|es| - 1]) {
        GoalStep(evictS, After(evictS, es[..|es| - 1]), es[|es| - 1]);
      }
    }
  }

  ghost predicate SingleGoal(evictS: int, es: seq<Event>) {
    forall k :: 0 <= k <= |es| ==> InFlight(After(evictS, es[..k]).executor) <= 1
  }

  lemma SingleGoalSnoc(evictS: int, es: seq<Event>)
    requires es != []
    ensures SingleGoal(evictS, es) <==>
              SingleGoal(evictS, es[..|es| - 1]) && InFlight(After(evictS, es).executor) <= 1
  {
    hide After, InFlight;
    var n := |es| - 1;
    assert es[..|es|] == es;
    assert forall k :: 0 <= k <= n ==> es[..n][..k] == es[..k];
  }

  /** There is never more than one goal in flight if and only if no goal is requested while another request is unanswered;
      and then a goal is remembered exactly while it runs. */
  lemma {:induction false} SingleGoalExactly(evictS: int, es: seq<Event>)
    ensures SingleGoal(evictS, es) <==> NoEarlyGoal(evictS, es)
    ensures NoEarlyGoal(evictS, es) ==> Remembered(After(evictS, es).executor)
  {
    if es == [] {
      OneAtATime(evictS, es);
    } else {
      hide InFlight, Remembered, EarlyGoal, Step, Enabled, SingleGoal;
      var s, e := After(evictS, es[..|es| - 1]), es[|es| - 1];
      SingleGoalExactly(evictS, es[..|es| - 1]);
      SingleGoalSnoc(evictS, es);
      if NoEarlyGoal(evictS, es[..|es| - 1]) {
        OneAtATime(evictS, es[..|es| - 1]);
        EarlyIsEnabled(s, e);
        if Enabled(s, e) {
          GoalStep(evictS, s, e);
        }
      }
    }
  }

  lemma EarlyIsEnabled(s: State, e: Event)
    ensures EarlyGoal(s, e) ==> Enabled(s, e)
  {
  }

  // ---- which goal is remembered ----

  /** The last acceptance or result of a goal in the run: true for an acceptance. */
  function LastAnswer(evictS: int, es: seq<Event>): Option<bool> {
    if es == [] then None
    else
      var before, e := es[..|es| - 1], es[|es| - 1];
      if !Enabled(After(evictS, before), e) then LastAnswer(evictS, before)
      else if e.GoalResponse? && e.accepted then Some(true)
      else if e.GoalResult? then Some(false)
      else LastAnswer(evictS, before)
  }

  lemma ActiveStep(evictS: int, s: State, e: Event)
    requires Enabled(s, e)
    ensures Step(evictS, s, e).executor.memory.activeGoal
            == if e.GoalResponse? && e.accepted then Some(e.id) else if e.GoalResult? then None
               else s.executor.memory.activeGoal
  {
    hide Handle, Swept;
    if e.Dispatch? {
      HandleKeepsGoal(s.executor.memory, s.batch.cmds[0], e.env);
    }
  }

  /** The goal that was accepted last. */
  function LastAccepted(evictS: int, es: seq<Event>): Option<CmdId> {
    if es == [] then None
    else
      var before, e := es[..|es| - 1], es[|es| - 1];
      if e.GoalResponse? && e.accepted && Enabled(After(evictS, before), e) then Some(e.id) else LastAccepted(evictS, before)
  }

  /** In every run a goal is remembered exactly if the last acceptance or result was an acceptance, and then it is the goal
      accepted. */
  lemma {:induction false} RememberedExactly(evictS: int, es: seq<Event>)
    ensures var goal := After(evictS, es).executor.memory.activeGoal;
            && (goal.Some? <==> LastAnswer(evictS, es) == Some(true))
            && (goal.Some? ==> goal == LastAccepted(evictS, es))
  {
    if es != [] {
      hide Step, Enabled;
      RememberedExactly(evictS, es[..|es| - 1]);
      if Enabled(After(evictS, es[..|es| - 1]), es[|es| - 1]) {
        ActiveStep(evictS, After(evictS, es[..|es| - 1]), es[|es| - 1]);
      }
    }
  }

  /** A cancel is refused exactly if the last acceptance or result was not an acceptance; so a running goal cannot be
      cancelled exactly if the last of them was a result. */
  lemma CancelRefusedExactly(evictS: int, es: seq<Event>, c: Command, env: Env)
    requires c.code == CMD_CANCEL_GOAL
    ensures var x := After(evictS, es).executor;
            && (Handle(x.memory, c, env).ack == Some(ACK_REJECTED) <==> LastAnswer(evictS, es) != Some(true))
            && (x.awaitResult != multiset{} ==>
                  (Handle(x.memory, c, env).ack == Some(ACK_REJECTED) <==> LastAnswer(evictS, es) == Some(false)))
  {
    RememberedExactly(evictS, es);
    RunningIsAnswered(evictS, es);
    hide After, LastAnswer;
    var last := LastAnswer(evictS, es);
    if last.Some? && !last.value {
      assert last == Some(false);
    }
  }

  /** A goal that runs was accepted. */
  lemma {:induction false} RunningIsAnswered(evictS: int, es: seq<Event>)
    ensures After(evictS, es).executor.awaitResult != multiset{} ==> LastAnswer(evictS, es).Some?
  {
    if es != [] {
      hide Handle, Swept;
      RunningIsAnswered(evictS, es[..|es| - 1]);
    }
  }

  // ---- two goals ----

  const TARGET := Target(1.0, 2.0, 0.0, 90.0)

  function Goal(id: CmdId): Command {
    Command(id, CMD_NAV_GOAL, NO_PARTS.(navGoal := Some(TARGET)))
  }

  function Cancel(id: CmdId): Command {
    Command(id, CMD_CANCEL_GOAL, NO_PARTS)
  }

  const ENV := Env(true, {}, 0, 0)

  /** Two goals are requested before either is answered; the first one ends while the second one runs. */
  function TwoGoals(g: CmdId, h: CmdId): seq<Event> {
    RoverRuns.Handled(Goal(g), ENV) + RoverRuns.Handled(Goal(h), ENV)
    + [GoalResponse(g, true)] + [GoalResponse(h, true)] + [GoalResult(g, Succeeded)]
  }

  lemma AfterTwoRequests(evictS: int, g: CmdId, h: CmdId)
    requires g.text != "" && h.text != "" && g != h
    ensures var s := After(evictS, RoverRuns.Handled(Goal(g), ENV) + RoverRuns.Handled(Goal(h), ENV));
            && s.receiver.inFlight.None? && s.queues == s.batch == EMPTY
            && s.receiver.seen.Keys == {g, h}
            && s.executor.memory.activeGoal == None
            && s.executor.awaitGoal == multiset{g, h} && s.executor.awaitResult == multiset{}
  {
    hide Handle, After, Step, Swept;
    RoverRuns.AfterNone(evictS);
    RoverRuns.AfterHandled(evictS, [], Goal(g), ENV);
    var es := RoverRuns.Handled(Goal(g), ENV);
    assert [] + es == es;
    GoalRequested(INITIAL.executor.memory, g);
    RoverRuns.AfterHandled(evictS, es, Goal(h), ENV);
    GoalRequested(INITIAL.executor.memory, h);
  }

  lemma GoalRequested(m: Memory, id: CmdId)
    requires m.activeGoal.None?
    ensures Handle(m, Goal(id), ENV) == Outcome(None, ForGoal, m, [RequestGoal(id, TARGET)])
  {
  }

  lemma Answers(x: Executor, g: CmdId, h: CmdId)
    requires x.awaitGoal == multiset{g, h} && x.awaitResult == multiset{} && g != h
    ensures var x1 := GoalAnswered(x, g, true);
            var x2 := GoalAnswered(x1, h, true);
            var x3 := GoalEnded(x2, g, Succeeded);
            && h in x1.awaitGoal && g in x2.awaitResult
            && x3.awaitResult == multiset{h} && x3.memory.activeGoal == None
  {
  }

  lemma AfterTwoGoals(evictS: int, g: CmdId, h: CmdId)
    requires g.text != "" && h.text != "" && g != h
    ensures var s := After(evictS, TwoGoals(g, h));
            && s.receiver.inFlight.None? && s.queues == s.batch == EMPTY
            && s.receiver.seen.Keys == {g, h}
            && s.executor.awaitResult == multiset{h} && s.executor.memory.activeGoal == None
  {
    hide After, Swept, Run, Admit, Handle, GoalAnswered, GoalEnded;
    AfterTwoRequests(evictS, g, h);
    var es := RoverRuns.Handled(Goal(g), ENV) + RoverRuns.Handled(Goal(h), ENV);
    Answers(After(evictS, es).executor, g, h);
    hide RoverRuns.Handled;
    RoverRuns.AfterAppend(evictS, es, GoalResponse(g, true));
    RoverRuns.AfterAppend(evictS, es + [GoalResponse(g, true)], GoalResponse(h, true));
    RoverRuns.AfterAppend(evictS, es + [GoalResponse(g, true)] + [GoalResponse(h, true)], GoalResult(g, Succeeded));
  }

  /** Then a goal is running that cannot be cancelled: the rover has forgotten it and refuses. */
  lemma CancelRefusedWhileRunning(evictS: int, g: CmdId, h: CmdId, c: CmdId)
    requires g.text != "" && h.text != "" && c.text != "" && g != h && c != g && c != h
    ensures var x := After(evictS, TwoGoals(g, h) + RoverRuns.Handled(Cancel(c), ENV)).executor;
            && x.awaitResult == multiset{h}
            && x.acks != [] && x.acks[|x.acks| - 1] == Ack(c, CMD_CANCEL_GOAL, ACK_REJECTED)
  {
    hide After, Swept, Run, Admit, Handle, RoverRuns.Handled, TwoGoals;
    AfterTwoGoals(evictS, g, h);
    RoverRuns.AfterHandled(evictS, TwoGoals(g, h), Cancel(c), ENV);
    CancelRefused(Send(After(evictS, TwoGoals(g, h)).executor, ReceivedAck(Cancel(c))), c);
  }

  lemma CancelRefused(x: Executor, c: CmdId)
    requires x.memory.activeGoal.None?
    ensures var x' := Run(x, Cancel(c), ENV);
            x'.awaitResult == x.awaitResult && x'.acks == x.acks + [Ack(c, CMD_CANCEL_GOAL, ACK_REJECTED)]
  {
  }
}
