/** Starting and stopping mode processes, and which modes can be set in between. */
module ModeProcesses {
  import opened Options
  import opened Commands
  import opened Rover
  import opened Answers
  import ModeAnnounce

  function Registration(id: CmdId, mode: string): Command {
    Command(id, CMD_REGISTER_MODE, NO_PARTS.(registerMode := Some(mode)))
  }

  function Unregistration(id: CmdId, mode: string): Command {
    Command(id, CMD_UNREGISTER_MODE, NO_PARTS.(unregisterMode := Some(mode)))
  }

  function Selection(id: CmdId, mode: string): Command {
    Command(id, CMD_SET_MODE, NO_PARTS.(setMode := Some(mode)))
  }

  /** The same for every mode but one. */
  ghost predicate SameElsewhere(m: Memory, n: Memory, mode: string) {
    && n.activeGoal == m.activeGoal
    && m.modes - {mode} == n.modes - {mode}
    && m.procs - {mode} == n.procs - {mode}
  }

  /** A registration is accepted with the process it found or started; while that process lives, registering again is
      rejected and changes nothing. */
  lemma RegisteredOnce(m: Memory, id: CmdId, id': CmdId, mode: string, env: Env, env': Env)
    ensures var o := Handle(m, Registration(id, mode), env);
            o.ack == Some(ACK_ACCEPTED) ==>
              && mode in o.memory.procs && o.memory.procs[mode] in {env.found, env.forked}
              && SameElsewhere(m, o.memory, mode)
              && (o.memory.procs[mode] in env'.alive ==>
                    Handle(o.memory, Registration(id', mode), env') == Says(ACK_REJECTED, o.memory))
  {
    assert m.procs[mode := env.found] - {mode} == m.procs - {mode};
    assert m.procs[mode := env.forked] - {mode} == m.procs - {mode};
  }

  /** Unregistering a mode with a real process forgets its process and its announced id. */
  lemma Unregistered(m: Memory, id: CmdId, id': CmdId, mode: string, env: Env)
    requires mode in m.procs && m.procs[mode] > 0
    ensures var u := Handle(m, Unregistration(id, mode), env);
            && u == Does(ACK_ACCEPTED, m.(procs := m.procs - {mode}, modes := m.modes - {mode}), [Terminate(m.procs[mode])])
            && Handle(u.memory, Selection(id', mode), env).ack == Some(ACK_REJECTED)
  {
  }

  /** After an accepted registration with a real process, unregistering is accepted and undoes it; the mode cannot be set
      until it is announced again, and then it can exactly if its id is at most 127. */
  lemma UnregisterUndoes(m: Memory, ids: (CmdId, CmdId, CmdId), mode: string, env: Env, env': Env, code: int)
    requires mode != "" && 0 <= code <= 255
    requires var o := Handle(m, Registration(ids.0, mode), env);
             o.ack == Some(ACK_ACCEPTED) && o.memory.procs[mode] > 0
    ensures var o := Handle(m, Registration(ids.0, mode), env);
            var u := Handle(o.memory, Unregistration(ids.1, mode), env');
            var again := u.memory.(modes := ModeAnnounce.OnAnnounce(u.memory.modes, ModeAnnounce.Announcement(mode, code)));
            && u.ack == Some(ACK_ACCEPTED)
            && mode !in u.memory.procs && SameElsewhere(m, u.memory, mode)
            && Handle(u.memory, Selection(ids.2, mode), env').ack == Some(ACK_REJECTED)
            && (Handle(again, Selection(ids.2, mode), env').ack == Some(ACK_ACCEPTED) <==> code <= 127)
  {
    hide ModeAnnounce.OnAnnounce, ModeAnnounce.Announcement, Handle;
    var o := Handle(m, Registration(ids.0, mode), env);
    RegisteredOnce(m, ids.0, ids.1, mode, env, env');
    Unregistered(o.memory, ids.1, ids.2, mode, env');
    ModeAnnounce.SelectableAfterAnnounce(o.memory.modes - {mode}, mode, code);
    var again := ModeAnnounce.OnAnnounce(o.memory.modes - {mode}, ModeAnnounce.Announcement(mode, code));
    Selected(Memory(o.memory.activeGoal, again, o.memory.procs - {mode}), ids.2, mode, env');
  }

  lemma Selected(m: Memory, id: CmdId, mode: string, env: Env)
    ensures Handle(m, Selection(id, mode), env).ack == Some(ACK_ACCEPTED) <==> ModeAnnounce.Selectable(m.modes, mode)
  {
  }

  // ---- which process is kept ----

  /** The process search finds one that lives. */
  predicate FindsLive(env: Env) {
    env.found > 0 && env.found in env.alive
  }

  /** A registration is rejected exactly if the rover has no program for the mode or the mode's remembered process lives. Otherwise
      a live process that is found is adopted and nothing is forked; if none is, the forked one is kept, and if the fork fails the
      mode has none. */
  lemma RegistrationExactly(m: Memory, id: CmdId, mode: string, env: Env)
    ensures var o := Handle(m, Registration(id, mode), env);
            var known := mode == "Rover Speed Steering" || mode == "Rover Speed Attitude" || mode == "Rover Speed Rate"
                         || mode == "RoverManual";
            var kept := if mode in o.memory.procs then Some(o.memory.procs[mode]) else None;
            var lives := mode in m.procs && m.procs[mode] in env.alive;
            && (o.ack == Some(2) <==> !known || lives)
            && (o.ack == Some(1) <==> known && !lives && (FindsLive(env) || env.forked >= 0))
            && (o.ack == Some(4) <==> known && !lives && !FindsLive(env) && env.forked < 0)
            && (!known || lives ==> o.memory == m)
            && (known && !lives ==> kept == if FindsLive(env) then Some(env.found)
                                            else if env.forked >= 0 then Some(env.forked) else None)
            && SameElsewhere(m, o.memory, mode) && o.memory.modes == m.modes
  {
    assert m.procs[mode := env.found] - {mode} == m.procs - {mode};
    assert m.procs[mode := env.forked] - {mode} == m.procs - {mode};
    assert m.procs - {mode} - {mode} == m.procs - {mode};
  }

  // ---- over runs ----

  /** Event k runs a registration, an unregistration or a selection of the mode. */
  predicate Asks(evictS: int, es: seq<Event>, k: nat, mode: string, code: int)
    requires k < |es|
  {
    && Runs(evictS, es, k)
    && var c := Handed(evictS, es, k);
    && c.code == code
    && (code == 10 ==> c.body.registerMode == Some(mode) && mode in KNOWN_MODES)
    && (code == 11 ==> c.body.unregisterMode == Some(mode))
    && (code == 4 ==> c.body.setMode == Some(mode))
  }

  /** The process a mode has: the one last adopted or forked for it, unless it was unregistered or a fork failed since. */
  function Kept(evictS: int, es: seq<Event>, mode: string): Option<int> {
    if es == [] then None
    else
      var n := |es| - 1;
      var before := Kept(evictS, es[..n], mode);
      if Asks(evictS, es, n, mode, 11) then None
      else if !Asks(evictS, es, n, mode, 10) || (before.Some? && before.value in es[n].env.alive) then before
      else if FindsLive(es[n].env) then Some(es[n].env.found)
      else if es[n].env.forked >= 0 then Some(es[n].env.forked)
      else None
  }

  /** An unregistration finds a process to end: the mode's own, or one a search finds. */
  predicate Ends(evictS: int, es: seq<Event>, k: nat, mode: string)
    requires k < |es|
  {
    && Asks(evictS, es, k, mode, 11)
    && var own := Kept(evictS, es[..k], mode);
    && ((own.Some? && own.value > 0) || (mode in KNOWN_MODES && es[k].env.found > 0))
  }

  /** The id a mode was last announced with, unless its process was ended since. */
  function NavState(evictS: int, es: seq<Event>, mode: string): Option<int> {
    if es == [] then None
    else
      var n := |es| - 1;
      var said := if es[n].Announced? then ModeAnnounce.Read(es[n].data) else None;
      if said.Some? && said.value.0 == mode then Some(said.value.1)
      else if Ends(evictS, es, n, mode) then None
      else NavState(evictS, es[..n], mode)
  }

  function Lookup(m: map<string, int>, mode: string): Option<int> {
    if mode in m then Some(m[mode]) else None
  }

  /** What a handler does to the tables' entries of a mode. */
  lemma HandleTables(m: Memory, c: Command, env: Env, mode: string)
    ensures var n := Handle(m, c, env).memory;
            var own := Lookup(m.procs, mode);
            var unregisters := c.code == 11 && c.body.unregisterMode == Some(mode);
            && Lookup(n.modes, mode)
               == (if unregisters && ((own.Some? && own.value > 0) || (mode in KNOWN_MODES && env.found > 0)) then None
                   else Lookup(m.modes, mode))
            && Lookup(n.procs, mode)
               == if unregisters then None
                  else if !(c.code == 10 && c.body.registerMode == Some(mode) && mode in KNOWN_MODES) then own
                  else if own.Some? && own.value in env.alive then own
                  else if FindsLive(env) then Some(env.found)
                  else if env.forked >= 0 then Some(env.forked)
                  else None
  {
  }

  lemma RunStep(evictS: int, es: seq<Event>, mode: string)
    requires es != [] && Runs(evictS, es, |es| - 1)
    requires Kept(evictS, es[..|es| - 1], mode) == Lookup(After(evictS, es[..|es| - 1]).executor.memory.procs, mode)
    requires NavState(evictS, es[..|es| - 1], mode) == Lookup(After(evictS, es[..|es| - 1]).executor.memory.modes, mode)
    ensures var o := Handle(After(evictS, es[..|es| - 1]).executor.memory, Handed(evictS, es, |es| - 1), es[|es| - 1].env);
            && Kept(evictS, es, mode) == Lookup(o.memory.procs, mode)
            && NavState(evictS, es, mode) == Lookup(o.memory.modes, mode)
  {
    hide After, Handle, Lookup, FindsLive;
    HandleTables(After(evictS, es[..|es| - 1]).executor.memory, Handed(evictS, es, |es| - 1), es[|es| - 1].env, mode);
  }

  predicate SameTables(m: Memory, n: Memory) {
    n.procs == m.procs && n.modes == m.modes
  }

  lemma CallbackTables(s: State, e: Event)
    requires Enabled(s, e) && (e.GoalResponse? || e.GoalResult? || e.CancelResponse?)
    ensures SameTables(s.executor.memory, Step(0, s, e).executor.memory)
  {
    hide Run, Swept, Push;
  }

  /** What an event other than a dispatch does to the tables. */
  lemma TablesElsewhere(evictS: int, s: State, e: Event)
    requires !(e.Dispatch? && Enabled(s, e))
    ensures var m, m' := s.executor.memory, Next(evictS, s, e).executor.memory;
            && m'.procs == m.procs
            && m'.modes == if e.Announced? then ModeAnnounce.OnAnnounce(m.modes, e.data) else m.modes
  {
    hide Swept, Push, Admits, Run, ModeAnnounce.OnAnnounce, GoalAnswered, GoalEnded, CancelAnswered;
    if Enabled(s, e) && (e.GoalResponse? || e.GoalResult? || e.CancelResponse?) {
      CallbackTables(s, e);
    }
  }

  lemma TablesRun(evictS: int, s: State, e: Event)
    requires e.Dispatch? && Enabled(s, e)
    ensures Next(evictS, s, e).executor.memory == Handle(s.executor.memory, s.batch.cmds[0], e.env).memory
  {
    hide Handle;
  }

  /** In every run the rover remembers exactly that process and that id for every mode. */
  lemma {:induction false} MemoryIs(evictS: int, es: seq<Event>, mode: string)
    ensures var m := After(evictS, es).executor.memory;
            Kept(evictS, es, mode) == Lookup(m.procs, mode) && NavState(evictS, es, mode) == Lookup(m.modes, mode)
  {
    hide Handle, Next;
    if es != [] {
      var n := |es| - 1;
      var s, e := After(evictS, es[..n]), es[n];
      MemoryIs(evictS, es[..n], mode);
      if Runs(evictS, es, n) {
        RunStep(evictS, es, mode);
        TablesRun(evictS, s, e);
      } else {
        hide ModeAnnounce.Read;
        TablesElsewhere(evictS, s, e);
      }
    }
  }

  // ---- answers ----

  /** Event k runs a selection that is answered with this status: the mode's id is known and not negative, or not. */
  predicate Selects(evictS: int, es: seq<Event>, k: nat, id: CmdId, status: int)
    requires k < |es|
  {
    && RunsAs(evictS, es, k, id, 4)
    && var mode := Handed(evictS, es, k).body.setMode;
    var known := if mode.Some? then NavState(evictS, es[..k], mode.value) else None;
    status == if known.Some? && known.value >= 0 then 1 else 2
  }

  /** Event k runs a registration that is answered with this status. */
  predicate Registers(evictS: int, es: seq<Event>, k: nat, id: CmdId, status: int)
    requires k < |es|
  {
    && RunsAs(evictS, es, k, id, 10)
    && var mode, env := Handed(evictS, es, k).body.registerMode, es[k].env;
    status == if mode.None? || mode.value !in KNOWN_MODES then 2
              else
                var own := Kept(evictS, es[..k], mode.value);
                if own.Some? && own.value in env.alive then 2
                else if FindsLive(env) || env.forked >= 0 then 1
                else 4
  }

  /** Event k runs an unregistration that is answered with this status: there is a process to end, or there is none. */
  predicate Unregisters(evictS: int, es: seq<Event>, k: nat, id: CmdId, status: int)
    requires k < |es|
  {
    && RunsAs(evictS, es, k, id, 11)
    && var mode := Handed(evictS, es, k).body.unregisterMode;
    status == if mode.Some? && Ends(evictS, es, k, mode.value) then 1 else 2
  }

  lemma HandleAcks(m: Memory, c: Command, env: Env)
    ensures var ack := Handle(m, c, env).ack;
            && (c.code == 4 ==>
                  var known := if c.body.setMode.Some? then Lookup(m.modes, c.body.setMode.value) else None;
                  ack == Some(if known.Some? && known.value >= 0 then 1 else 2))
            && (c.code == 10 ==>
                  var mode := c.body.registerMode;
                  var own := if mode.Some? then Lookup(m.procs, mode.value) else None;
                  ack == Some(if mode.None? || mode.value !in KNOWN_MODES || (own.Some? && own.value in env.alive) then 2
                              else if FindsLive(env) || env.forked >= 0 then 1 else 4))
            && (c.code == 11 ==>
                  var mode := c.body.unregisterMode;
                  var own := if mode.Some? then Lookup(m.procs, mode.value) else None;
                  ack == Some(if mode.Some? && ((own.Some? && own.value > 0) || (mode.value in KNOWN_MODES && env.found > 0))
                              then 1 else 2))
  {
  }

  lemma SelectsSent(evictS: int, es: seq<Event>, k: nat, id: CmdId, status: int)
    requires k < |es|
    ensures SendsAt(evictS, es, k, Ack(id, 4, status)) <==> Selects(evictS, es, k, id, status)
  {
    hide Handle, After, NavState, Kept, Lookup, FindsLive;
    if RunsAs(evictS, es, k, id, 4) {
      HandleAcks(After(evictS, es[..k]).executor.memory, Handed(evictS, es, k), es[k].env);
      if Handed(evictS, es, k).body.setMode.Some? {
        MemoryIs(evictS, es[..k], Handed(evictS, es, k).body.setMode.value);
      }
    }
  }

  lemma RegistersSent(evictS: int, es: seq<Event>, k: nat, id: CmdId, status: int)
    requires k < |es|
    ensures SendsAt(evictS, es, k, Ack(id, 10, status)) <==> Registers(evictS, es, k, id, status)
  {
    hide Handle, After, NavState, Kept, Lookup, FindsLive;
    if RunsAs(evictS, es, k, id, 10) {
      HandleAcks(After(evictS, es[..k]).executor.memory, Handed(evictS, es, k), es[k].env);
      if Handed(evictS, es, k).body.registerMode.Some? {
        MemoryIs(evictS, es[..k], Handed(evictS, es, k).body.registerMode.value);
      }
    }
  }

  lemma UnregistersSent(evictS: int, es: seq<Event>, k: nat, id: CmdId, status: int)
    requires k < |es|
    ensures SendsAt(evictS, es, k, Ack(id, 11, status)) <==> Unregisters(evictS, es, k, id, status)
  {
    hide Handle, After, NavState, Kept, Lookup, FindsLive;
    if RunsAs(evictS, es, k, id, 11) {
      HandleAcks(After(evictS, es[..k]).executor.memory, Handed(evictS, es, k), es[k].env);
      if Handed(evictS, es, k).body.unregisterMode.Some? {
        MemoryIs(evictS, es[..k], Handed(evictS, es, k).body.unregisterMode.value);
      }
    }
  }

  /** In every run a selection (4) is acknowledged ACCEPTED exactly if the mode was announced with an id up to 127 last and not
      ended since; a registration (10) REJECTED exactly if the mode is unknown or its process lives, FAILED exactly if otherwise
      none is found and the fork fails, and ACCEPTED in all other cases; an unregistration (11) ACCEPTED exactly if there is a
      process to end. */
  lemma ModeAnswers(evictS: int, es: seq<Event>, id: CmdId, status: int)
    requires status != 0
    ensures var acks := After(evictS, es).executor.acks;
            && (Ack(id, 4, status) in acks <==> exists k :: 0 <= k < |es| && Selects(evictS, es, k, id, status))
            && (Ack(id, 10, status) in acks <==> exists k :: 0 <= k < |es| && Registers(evictS, es, k, id, status))
            && (Ack(id, 11, status) in acks <==> exists k :: 0 <= k < |es| && Unregisters(evictS, es, k, id, status))
  {
    hide After, SendsAt, Selects, Registers, Unregisters;
    SentExactly(evictS, es, Ack(id, 4, status));
    SentExactly(evictS, es, Ack(id, 10, status));
    SentExactly(evictS, es, Ack(id, 11, status));
    forall k | 0 <= k < |es| {
      SelectsSent(evictS, es, k, id, status);
    }
    forall k | 0 <= k < |es| {
      RegistersSent(evictS, es, k, id, status);
    }
    forall k | 0 <= k < |es| {
      UnregistersSent(evictS, es, k, id, status);
    }
  }
}
