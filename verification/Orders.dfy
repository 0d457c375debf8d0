/** What the rover orders the vehicle, the recorder and the navigation server to do, over every run: exactly what the commands it
    was handed ask for. Command numbers are written out as they are on the wire. */
module Orders {
  import opened Options
  import opened Commands
  import opened Rover
  import opened Answers
  import Goals
  import ModeAnnounce
  import ModeProcesses
  import RoverRuns

  /** The command asks for the order, given the goal to cancel, the id its mode is known by and the process its mode has. */
  predicate AsksFor(c: Command, env: Env, goal: Option<CmdId>, known: Option<int>, own: Option<int>, o: Order) {
    match o
    case SetArmed(armed) => if armed then c.code == 2 else c.code == 3 || c.code == 5
    case Move(motion) => (c.code == 5 && motion == Motion(0.0, 0.0)) || (c.code == 8 && c.body.drive == Some(motion))
    case SetNavState(n) => c.code == 4 && known == Some(n) && n >= 0
    case ForwardRecord(action) =>
      c.code == 9 && c.body.record == Some(action) && (action == "start" || action == "stop" || action == "toggle")
    case RequestGoal(id, target) =>
      c.code == 1 && c.id == id && c.body.navGoal == Some(target) && env.serverUp && goal.None?
    case RequestCancel(g) => c.code == 6 && goal == Some(g)
    case Terminate(pid) =>
      && c.code == 11 && c.body.unregisterMode.Some? && pid > 0
      && if own.Some? && own.value > 0 then pid == own.value
         else c.body.unregisterMode.value in KNOWN_MODES && pid == env.found
  }

  /** The goal a run leaves to be canceled: the one accepted last, unless a result came since. */
  function GoalLeft(evictS: int, es: seq<Event>): Option<CmdId> {
    if Goals.LastAnswer(evictS, es) == Some(true) then Goals.LastAccepted(evictS, es) else None
  }

  /** Event k runs a command that asks for the order, given what happened before. */
  predicate Asked(evictS: int, es: seq<Event>, k: nat, o: Order)
    requires k < |es|
  {
    && Runs(evictS, es, k)
    && var c := Handed(evictS, es, k);
       var known := if c.body.setMode.Some? then ModeProcesses.NavState(evictS, es[..k], c.body.setMode.value) else None;
       var own :=
         if c.body.unregisterMode.Some? then ModeProcesses.Kept(evictS, es[..k], c.body.unregisterMode.value) else None;
       AsksFor(c, es[k].env, GoalLeft(evictS, es[..k]), known, own, o)
  }

  // ---- one event ----

  /** The event makes the rover give the order. */
  predicate Gives(s: State, e: Event, o: Order) {
    e.Dispatch? && Enabled(s, e) && o in Handle(s.executor.memory, s.batch.cmds[0], e.env).orders
  }

  lemma RunGives(x: Executor, c: Command, env: Env)
    ensures Run(x, c, env).orders == x.orders + Handle(x.memory, c, env).orders
  {
    hide Handle;
  }

  lemma OthersGive(evictS: int, s: State, e: Event)
    requires Enabled(s, e) && !e.Dispatch?
    ensures Step(evictS, s, e).executor.orders == s.executor.orders
  {
    hide Swept, Push, Admits, Run, ModeAnnounce.OnAnnounce;
  }

  lemma StepGives(evictS: int, s: State, e: Event, o: Order)
    ensures o in Next(evictS, s, e).executor.orders <==> o in s.executor.orders || Gives(s, e, o)
  {
    hide Handle, Swept, Push, Admits, Run, ModeAnnounce.OnAnnounce, GoalAnswered, GoalEnded, CancelAnswered;
    if Enabled(s, e) {
      if e.Dispatch? {
        RunGives(s.executor, s.batch.cmds[0], e.env);
      } else {
        OthersGive(evictS, s, e);
      }
    }
  }

  ghost predicate GivesAt(evictS: int, es: seq<Event>, k: nat, o: Order)
    requires k < |es|
  {
    Gives(After(evictS, es[..k]), es[k], o)
  }

  /** A handler orders what the command asks for, by what is remembered. */
  lemma HandlerGives(m: Memory, c: Command, env: Env, o: Order)
    ensures var known := if c.body.setMode.Some? then ModeProcesses.Lookup(m.modes, c.body.setMode.value) else None;
            var own := if c.body.unregisterMode.Some? then ModeProcesses.Lookup(m.procs, c.body.unregisterMode.value) else None;
            o in Handle(m, c, env).orders <==> AsksFor(c, env, m.activeGoal, known, own, o)
  {
  }

  lemma GivenIsAsked(evictS: int, es: seq<Event>, k: nat, o: Order)
    requires k < |es|
    ensures GivesAt(evictS, es, k, o) <==> Asked(evictS, es, k, o)
  {
    hide Handle, AsksFor;
    if Runs(evictS, es, k) {
      var c := Handed(evictS, es, k);
      HandlerGives(After(evictS, es[..k]).executor.memory, c, es[k].env, o);
      Goals.RememberedExactly(evictS, es[..k]);
      if c.body.setMode.Some? {
        ModeProcesses.MemoryIs(evictS, es[..k], c.body.setMode.value);
      }
      if c.body.unregisterMode.Some? {
        ModeProcesses.MemoryIs(evictS, es[..k], c.body.unregisterMode.value);
      }
    }
    hide After, Goals.LastAnswer, Goals.LastAccepted, ModeProcesses.Kept, ModeProcesses.NavState, ModeProcesses.Lookup;
  }

  // ---- runs ----

  lemma GivesAtPrefix(evictS: int, es: seq<Event>, n: nat, k: nat, o: Order)
    requires k < n <= |es|
    ensures GivesAt(evictS, es[..n], k, o) <==> GivesAt(evictS, es, k, o)
  {
    hide After, Gives;
    assert es[..n][..k] == es[..k];
  }

  lemma GivesAtEnd(evictS: int, es: seq<Event>, n: nat, o: Order)
    requires n < |es|
    ensures GivesAt(evictS, es, n, o) <==> Gives(After(evictS, es[..n]), es[n], o)
  {
  }

  lemma {:induction false} GivenExactly(evictS: int, es: seq<Event>, o: Order)
    ensures o in After(evictS, es).executor.orders <==> exists k :: 0 <= k < |es| && GivesAt(evictS, es, k, o)
  {
    hide Next, Gives, GivesAt;
    if es != [] {
      var n := |es| - 1;
      GivenExactly(evictS, es[..n], o);
      StepGives(evictS, After(evictS, es[..n]), es[n], o);
      forall k | 0 <= k < n ensures GivesAt(evictS, es[..n], k, o) <==> GivesAt(evictS, es, k, o) {
        GivesAtPrefix(evictS, es, n, k, o);
      }
      GivesAtEnd(evictS, es, n, o);
    }
  }

  /** In every run an order is given exactly if a command that was handled asks for it: to arm, only an arm command (2); to disarm,
      a disarm command (3) or an emergency stop (5); to move, a drive command (8) as it says or an emergency stop with zero; a
      mode's announced id (4), a known record action (9), a goal while none is accepted (1), the cancel of the goal accepted
      last (6), and the end of a mode's own or found process (11). */
  lemma OrdersExactly(evictS: int, es: seq<Event>, o: Order)
    ensures o in After(evictS, es).executor.orders <==> exists k :: 0 <= k < |es| && Asked(evictS, es, k, o)
  {
    hide After, GivesAt, Asked;
    GivenExactly(evictS, es, o);
    forall k | 0 <= k < |es| {
      GivenIsAsked(evictS, es, k, o);
    }
  }

  /** Whatever the rover's state, an emergency stop stops and disarms at once: nothing comes between. */
  lemma EstopStops(evictS: int, es: seq<Event>, env: Env)
    requires Enabled(After(evictS, es), Dispatch(env)) && After(evictS, es).batch.cmds[0].code == 5
    ensures After(evictS, es + [Dispatch(env)]).executor.orders
            == After(evictS, es).executor.orders + [Move(Motion(0.0, 0.0)), SetArmed(false)]
  {
    RoverRuns.AfterAppend(evictS, es, Dispatch(env));
    hide After;
  }
}
