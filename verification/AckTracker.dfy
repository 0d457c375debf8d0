/** The control centre's ACK tracker: each stretch between two awaits is one atomic step of the event loop. */
module Tracking {
  import opened Options
  import opened Commands

  const MS := 1_000_000
  const HISTORY_LIMIT := 50
  const NAV_GOAL_TIMEOUT := 120_000 * MS

  datatype Message = CommandSent | FromRover | AckTimeout | LocalReason(text: string)

  datatype HistoryRecord = HistoryRecord(id: CmdId, cmdType: CmdType, status: Status, message: Message, roundTripMs: int)

  /** A pending command; done says that its future has its result. */
  datatype Entry = Entry(cmdType: CmdType, sentAt: int, timeout: int, done: bool)

  /** The result a future was given, and when. */
  datatype Resolution = Resolution(record: HistoryRecord, sentAt: int, at: int)

  datatype Tracker = Tracker(pending: map<CmdId, Entry>, history: seq<HistoryRecord>, resolutions: seq<Resolution>)

  // ---- history ----

  function IndexOf(h: seq<HistoryRecord>, id: CmdId): (i: Option<nat>)
    ensures i.Some? ==> i.value < |h| && h[i.value].id == id && forall k :: 0 <= k < i.value ==> h[k].id != id
    ensures i.None? ==> forall k :: 0 <= k < |h| ==> h[k].id != id
  {
    if h == [] then None
    else if h[0].id == id then Some(0)
    else
      var i := IndexOf(h[1..], id);
      if i.None? then None else Some(i.value + 1)
  }

  function Capped(h: seq<HistoryRecord>): seq<HistoryRecord> {
    if |h| <= HISTORY_LIMIT then h else h[..HISTORY_LIMIT]
  }

  function Upsert(h: seq<HistoryRecord>, r: HistoryRecord): seq<HistoryRecord> {
    var i := IndexOf(h, r.id);
    if i.Some? then h[i.value := r] else Capped([r] + h)
  }

  // ---- the atomic steps ----

  function Timeout(default: int, t: CmdType): int {
    if t.NavGoal? then NAV_GOAL_TIMEOUT else default
  }

  function Resolve(t: Tracker, e: Entry, r: HistoryRecord, now: int): seq<Resolution> {
    if e.done then t.resolutions else t.resolutions + [Resolution(r, e.sentAt, now)]
  }

  function Register(default: int, t: Tracker, id: CmdId, ct: CmdType, now: int): Tracker {
    Tracker(
      t.pending[id := Entry(ct, now, Timeout(default, ct), false)],
      Upsert(t.history, HistoryRecord(id, ct, Sent, CommandSent, 0)),
      t.resolutions)
  }

  function AckRecord(e: Entry, a: Ack, now: int): HistoryRecord {
    HistoryRecord(a.id, e.cmdType, AckStatusName(a.status), FromRover, (now - e.sentAt) / MS)
  }

  function Acknowledge(t: Tracker, a: Ack, now: int): Tracker {
    if a.id !in t.pending then t
    else
      var e := t.pending[a.id];
      var r := AckRecord(e, a, now);
      if IsTerminal(e.cmdType, r.status)
      then Tracker(t.pending - {a.id}, Upsert(t.history, r), Resolve(t, e, r, now))
      else t.(history := Upsert(t.history, r))
  }

  predicate Expired(e: Entry, now: int) {
    e.timeout - (now - e.sentAt) <= 0
  }

  /** The record of a timeout carries the default timeout as its round trip, for every command. */
  function Expire(default: int, t: Tracker, id: CmdId, now: int): Tracker
    requires id in t.pending
  {
    var e := t.pending[id];
    var r := HistoryRecord(id, e.cmdType, AckFailed, AckTimeout, default / MS);
    Tracker(t.pending - {id}, Upsert(t.history, r), Resolve(t, e, r, now))
  }

  function Reject(t: Tracker, id: CmdId, ct: CmdType, reason: string): Tracker {
    t.(history := Upsert(t.history, HistoryRecord(id, ct, AckRejected, LocalReason(reason), 0)))
  }

  // ---- the event loop ----

  /** Starting: registered, but the task that will watch for the timeout is not created yet. */
  datatype State = State(now: int, issued: set<CmdId>, starting: set<CmdId>, watching: set<CmdId>, tracker: Tracker)

  const INITIAL := State(0, {}, {}, {}, Tracker(map[], [], []))

  datatype Event =
    | Tick(dt: nat)
    | CmdSent(id: CmdId, cmdType: CmdType)
    | Spawn(id: CmdId)
    | CmdAck(ack: Ack)
    | Check(id: CmdId)                       // the watching task wakes up
    | Rejected(id: CmdId, cmdType: CmdType, reason: string)

  /** Command ids are fresh. */
  predicate Enabled(s: State, e: Event) {
    match e
    case CmdSent(id, _) => id !in s.issued
    case Rejected(id, _, _) => id !in s.issued
    case Spawn(id) => id in s.starting
    case Check(id) => id in s.watching
    case _ => true
  }

  function Step(default: int, s: State, e: Event): State
    requires Enabled(s, e)
  {
    match e
    case Tick(dt) => s.(now := s.now + dt)
    case CmdSent(id, ct) =>
      State(s.now, s.issued + {id}, s.starting + {id}, s.watching, Register(default, s.tracker, id, ct, s.now))
    case Spawn(id) => s.(starting := s.starting - {id}, watching := s.watching + {id})
    case CmdAck(a) => s.(tracker := Acknowledge(s.tracker, a, s.now))
    case Check(id) =>
      if id !in s.tracker.pending then s.(watching := s.watching - {id})
      else if Expired(s.tracker.pending[id], s.now)
      then s.(watching := s.watching - {id}, tracker := Expire(default, s.tracker, id, s.now))
      else s
    case Rejected(id, ct, reason) =>
      s.(issued := s.issued + {id}, tracker := Reject(s.tracker, id, ct, reason))
  }

  function Next(default: int, s: State, e: Event): State {
    if Enabled(s, e) then Step(default, s, e) else s
  }

  /** The state after a run; runs grow at the end. */
  function After(default: int, es: seq<Event>): State {
    if es == [] then INITIAL else Next(default, After(default, es[..|es| - 1]), es[|es| - 1])
  }

  // ---- invariants ----

  ghost predicate Distinct(h: seq<HistoryRecord>) {
    forall i, j :: 0 <= i < j < |h| ==> h[i].id != h[j].id
  }

  ghost predicate ResolvedOnce(rs: seq<Resolution>) {
    forall i, j :: 0 <= i < j < |rs| ==> rs[i].record.id != rs[j].record.id
  }

  /** A record is terminal exactly if its command is not pending. */
  ghost predicate TerminalIffSettled(t: Tracker) {
    forall r :: r in t.history ==> (IsTerminal(r.cmdType, r.status) <==> r.id !in t.pending)
  }

  /** Pending futures have no result yet, and results are final: terminal, and what the history shows. */
  ghost predicate ResultsFinal(t: Tracker) {
    && (forall id :: id in t.pending ==> !t.pending[id].done)
    && (forall q :: q in t.resolutions ==> q.record.id !in t.pending && IsTerminal(q.record.cmdType, q.record.status))
    && (forall q, r :: q in t.resolutions && r in t.history && r.id == q.record.id ==> r == q.record)
  }

  ghost predicate OnTime(default: int, now: int, t: Tracker) {
    && (forall id :: id in t.pending ==>
          t.pending[id].sentAt <= now && t.pending[id].timeout == Timeout(default, t.pending[id].cmdType))
    && (forall q :: q in t.resolutions && q.record.message.AckTimeout? ==>
          q.record.status.AckFailed? && q.at - q.sentAt >= Timeout(default, q.record.cmdType))
  }

  ghost predicate TrackerInv(default: int, now: int, t: Tracker) {
    && |t.history| <= HISTORY_LIMIT
    && Distinct(t.history)
    && ResolvedOnce(t.resolutions)
    && TerminalIffSettled(t)
    && ResultsFinal(t)
    && OnTime(default, now, t)
  }

  /** Ids in use have been issued, and each pending command has a task that watches it or is about to. */
  ghost predicate Known(s: State) {
    && s.tracker.pending.Keys <= s.issued
    && (forall r :: r in s.tracker.history ==> r.id in s.issued)
    && (forall q :: q in s.tracker.resolutions ==> q.record.id in s.issued)
    && s.tracker.pending.Keys <= s.starting + s.watching
  }

  ghost predicate Inv(default: int, s: State) {
    TrackerInv(default, s.now, s.tracker) && Known(s)
  }

  // ---- upsert ----

  lemma UpsertMembers(h: seq<HistoryRecord>, r: HistoryRecord)
    requires Distinct(h) && |h| <= HISTORY_LIMIT
    ensures var u := Upsert(h, r);
            && |u| <= HISTORY_LIMIT
            && Distinct(u)
            && r in u
            && forall x :: x in u ==> x == r || (x in h && x.id != r.id)
  {
    var i := IndexOf(h, r.id);
    if i.Some? {
      var u := h[i.value := r];
      assert u[i.value] == r;
      forall x | x in u ensures x == r || (x in h && x.id != r.id) {
        var k :| 0 <= k < |u| && u[k] == x;
        if k != i.value {
          assert x == h[k];
        }
      }
    } else {
      var all := [r] + h;
      assert Capped(all)[0] == r;
      assert forall k :: 0 < k < |all| ==> all[k] == h[k - 1];
      assert forall k :: 0 <= k < |Capped(all)| ==> Capped(all)[k] == all[k];
    }
  }

  // ---- steps keep the invariant ----

  /** A new or settled record takes the place of the one of its id. */
  lemma SettledWith(t: Tracker, t': Tracker, r: HistoryRecord)
    requires |t.history| <= HISTORY_LIMIT && Distinct(t.history) && TerminalIffSettled(t)
    requires t'.history == Upsert(t.history, r) && t'.pending.Keys - {r.id} == t.pending.Keys - {r.id}
    requires IsTerminal(r.cmdType, r.status) <==> r.id !in t'.pending
    ensures |t'.history| <= HISTORY_LIMIT && Distinct(t'.history) && TerminalIffSettled(t')
  {
    UpsertMembers(t.history, r);
    hide Upsert, Distinct, IsTerminal;
    forall x | x in t'.history ensures IsTerminal(x.cmdType, x.status) <==> x.id !in t'.pending {
      if x != r {
        assert x.id in t.pending.Keys - {r.id} <==> x.id in t'.pending.Keys - {r.id};
      }
    }
  }

  lemma InvRegister(default: int, t: Tracker, id: CmdId, ct: CmdType, now: int)
    requires TrackerInv(default, now, t) && id !in t.pending
    requires forall q :: q in t.resolutions ==> q.record.id != id
    ensures TrackerInv(default, now, Register(default, t, id, ct, now))
  {
    hide Upsert, Distinct, ResolvedOnce, TerminalIffSettled, Timeout;
    var t', r := Register(default, t, id, ct, now), HistoryRecord(id, ct, Sent, CommandSent, 0);
    SettledWith(t, t', r);
    UpsertMembers(t.history, r);
  }

  /** A command leaves the pending table with its result. */
  lemma InvSettle(default: int, t: Tracker, r: HistoryRecord, now: int)
    requires TrackerInv(default, now, t) && r.id in t.pending && IsTerminal(r.cmdType, r.status)
    requires r.cmdType == t.pending[r.id].cmdType
    requires r.message.AckTimeout? ==> r.status.AckFailed? && Expired(t.pending[r.id], now)
    ensures TrackerInv(default, now,
              Tracker(t.pending - {r.id}, Upsert(t.history, r), Resolve(t, t.pending[r.id], r, now)))
  {
    hide Upsert, Distinct, TerminalIffSettled, IsTerminal, Timeout;
    var t' := Tracker(t.pending - {r.id}, Upsert(t.history, r), Resolve(t, t.pending[r.id], r, now));
    SettledWith(t, t', r);
    UpsertMembers(t.history, r);
    ResolvedNew(t.resolutions, Resolution(r, t.pending[r.id].sentAt, now));
    hide ResolvedOnce;
  }

  lemma ResolvedNew(rs: seq<Resolution>, q: Resolution)
    requires ResolvedOnce(rs) && forall p :: p in rs ==> p.record.id != q.record.id
    ensures ResolvedOnce(rs + [q])
  {
  }

  lemma InvProgress(default: int, t: Tracker, r: HistoryRecord, now: int)
    requires TrackerInv(default, now, t) && r.id in t.pending && !IsTerminal(r.cmdType, r.status)
    ensures TrackerInv(default, now, t.(history := Upsert(t.history, r)))
  {
    hide Upsert, Distinct, ResolvedOnce, TerminalIffSettled, IsTerminal, OnTime;
    SettledWith(t, t.(history := Upsert(t.history, r)), r);
    UpsertMembers(t.history, r);
    OnTimeReads(default, now, t, t.(history := Upsert(t.history, r)));
  }

  lemma OnTimeReads(default: int, now: int, t: Tracker, t': Tracker)
    requires OnTime(default, now, t) && t'.pending == t.pending && t'.resolutions == t.resolutions
    ensures OnTime(default, now, t')
  {
  }

  lemma InvAcknowledge(default: int, t: Tracker, a: Ack, now: int)
    requires TrackerInv(default, now, t)
    ensures TrackerInv(default, now, Acknowledge(t, a, now))
  {
    hide TrackerInv, Upsert, IsTerminal, Resolve;
    if a.id in t.pending {
      var e := t.pending[a.id];
      var r := AckRecord(e, a, now);
      if IsTerminal(e.cmdType, r.status) {
        InvSettle(default, t, r, now);
      } else {
        InvProgress(default, t, r, now);
      }
    }
  }

  lemma InvReject(default: int, t: Tracker, id: CmdId, ct: CmdType, reason: string, now: int)
    requires TrackerInv(default, now, t) && id !in t.pending
    requires forall q :: q in t.resolutions ==> q.record.id != id
    ensures TrackerInv(default, now, Reject(t, id, ct, reason))
  {
    hide Upsert, Distinct, ResolvedOnce, TerminalIffSettled, OnTime;
    var r := HistoryRecord(id, ct, AckRejected, LocalReason(reason), 0);
    SettledWith(t, Reject(t, id, ct, reason), r);
    UpsertMembers(t.history, r);
    OnTimeReads(default, now, t, Reject(t, id, ct, reason));
  }

  lemma InvLater(default: int, t: Tracker, now: int, later: int)
    requires TrackerInv(default, now, t) && now <= later
    ensures TrackerInv(default, later, t)
  {
    hide Distinct, ResolvedOnce, TerminalIffSettled, ResultsFinal;
  }

  /** The ids of the tracker after a step are those before it and the step's own id. */
  lemma StepIds(default: int, s: State, e: Event)
    requires Inv(default, s) && Enabled(s, e)
    ensures Known(Step(default, s, e))
  {
    hide ResolvedOnce, TerminalIffSettled, ResultsFinal, OnTime, Distinct, Upsert, IsTerminal;
    if e.CmdSent? {
      UpsertMembers(s.tracker.history, HistoryRecord(e.id, e.cmdType, Sent, CommandSent, 0));
    } else if e.Rejected? {
      UpsertMembers(s.tracker.history, HistoryRecord(e.id, e.cmdType, AckRejected, LocalReason(e.reason), 0));
    } else if e.CmdAck? && e.ack.id in s.tracker.pending {
      UpsertMembers(s.tracker.history, AckRecord(s.tracker.pending[e.ack.id], e.ack, s.now));
    } else if e.Check? && e.id in s.tracker.pending {
      var r := HistoryRecord(e.id, s.tracker.pending[e.id].cmdType, AckFailed, AckTimeout, default / MS);
      UpsertMembers(s.tracker.history, r);
    }
  }

  lemma InvStep(default: int, s: State, e: Event)
    requires Inv(default, s) && Enabled(s, e)
    ensures Inv(default, Step(default, s, e))
  {
    StepIds(default, s, e);
    hide TrackerInv, Register, Acknowledge, Upsert;
    match e
    case Tick(dt) => InvLater(default, s.tracker, s.now, s.now + dt);
    case CmdSent(id, ct) => InvRegister(default, s.tracker, id, ct, s.now);
    case CmdAck(a) => InvAcknowledge(default, s.tracker, a, s.now);
    case Check(id) =>
      if id in s.tracker.pending && Expired(s.tracker.pending[id], s.now) {
        var r := HistoryRecord(id, s.tracker.pending[id].cmdType, AckFailed, AckTimeout, default / MS);
        InvSettle(default, s.tracker, r, s.now);
      }
    case Rejected(id, ct, reason) => InvReject(default, s.tracker, id, ct, reason, s.now);
    case _ =>
  }

  /** At every await point of every run: at most 50 records with distinct ids; a record is terminal exactly if its command is
      not pending; a pending future has no result; each future gets one result, which is terminal and is what the history
      shows; a timeout never comes early, and no pending command lacks a watcher. */
  lemma {:induction false} RunInvariant(default: int, es: seq<Event>)
    ensures Inv(default, After(default, es))
  {
    if es != [] {
      hide Inv, Step;
      RunInvariant(default, es[..|es| - 1]);
      if Enabled(After(default, es[..|es| - 1]), es[|es| - 1]) {
        InvStep(default, After(default, es[..|es| - 1]), es[|es| - 1]);
      }
    }
  }

  // ---- results are for good ----

  lemma StepKeepsResults(default: int, s: State, e: Event)
    requires Enabled(s, e)
    ensures s.tracker.resolutions <= Step(default, s, e).tracker.resolutions
  {
    hide Upsert, IsTerminal, Expired;
  }

  lemma {:induction false} ResultsGrow(default: int, es: seq<Event>, fs: seq<Event>)
    ensures After(default, es).tracker.resolutions <= After(default, es + fs).tracker.resolutions
  {
    if fs == [] {
      assert es + fs == es;
    } else {
      assert (es + fs)[..|es + fs| - 1] == es + fs[..|fs| - 1];
      ResultsGrow(default, es, fs[..|fs| - 1]);
      hide Step, Enabled;
      var s, e := After(default, es + fs[..|fs| - 1]), fs[|fs| - 1];
      if Enabled(s, e) {
        StepKeepsResults(default, s, e);
      }
    }
  }

  lemma ResolutionIsUnique(rs: seq<Resolution>, p: Resolution, q: Resolution)
    requires ResolvedOnce(rs) && p in rs && q in rs && p.record.id == q.record.id
    ensures p == q
  {
  }

  /** Whatever happens afterwards, a command with a result keeps that result, gets no other, is not pending again, and the
      history shows nothing else for it. */
  lemma SettledForGood(default: int, es: seq<Event>, fs: seq<Event>, q: Resolution)
    requires q in After(default, es).tracker.resolutions
    ensures var t := After(default, es + fs).tracker;
            && q in t.resolutions
            && (forall p :: p in t.resolutions && p.record.id == q.record.id ==> p == q)
            && q.record.id !in t.pending
            && (forall r :: r in t.history && r.id == q.record.id ==> r == q.record)
  {
    hide After, ResolvedOnce, TerminalIffSettled, OnTime, Distinct;
    ResultsGrow(default, es, fs);
    RunInvariant(default, es + fs);
    var t := After(default, es + fs).tracker;
    forall p | p in t.resolutions && p.record.id == q.record.id ensures p == q {
      ResolutionIsUnique(t.resolutions, p, q);
    }
  }

  /** A terminal ACK of a pending command is its result; any ACK of a command that is not pending changes nothing. */
  lemma AckSettles(default: int, es: seq<Event>, a: Ack)
    ensures var s, s' := After(default, es), After(default, es + [CmdAck(a)]);
            if a.id !in s.tracker.pending then s' == s
            else
              var e := s.tracker.pending[a.id];
              var r := AckRecord(e, a, s.now);
              && r in s'.tracker.history
              && (if IsTerminal(e.cmdType, AckStatusName(a.status))
                  then a.id !in s'.tracker.pending
                       && s'.tracker.resolutions == s.tracker.resolutions + [Resolution(r, e.sentAt, s.now)]
                  else s'.tracker.pending == s.tracker.pending && s'.tracker.resolutions == s.tracker.resolutions)
  {
    assert (es + [CmdAck(a)])[..|es|] == es;
    RunInvariant(default, es);
    hide After, Upsert, IsTerminal, TerminalIffSettled, OnTime, ResolvedOnce;
    var s := After(default, es);
    if a.id in s.tracker.pending {
      UpsertMembers(s.tracker.history, AckRecord(s.tracker.pending[a.id], a, s.now));
    }
  }

  lemma AfterAppend(default: int, es: seq<Event>, e: Event)
    ensures After(default, es + [e]) == Next(default, After(default, es), e)
  {
    assert (es + [e])[..|es|] == es;
  }

  /** As soon as a watcher finds its command past the deadline, the command is resolved as failed; until then, checking
      changes nothing, and a watcher of a settled command ends. */
  lemma DeadlineFires(default: int, es: seq<Event>, id: CmdId)
    requires id in After(default, es).watching
    ensures var s, s' := After(default, es), After(default, es + [Check(id)]);
            if id !in s.tracker.pending then s' == s.(watching := s.watching - {id})
            else
              var e := s.tracker.pending[id];
              if s.now - e.sentAt < Timeout(default, e.cmdType) then s' == s
              else
                var r := HistoryRecord(id, e.cmdType, AckFailed, AckTimeout, default / MS);
                && id !in s'.tracker.pending && id !in s'.watching
                && s'.tracker.resolutions == s.tracker.resolutions + [Resolution(r, e.sentAt, s.now)]
                && r in s'.tracker.history
  {
    RunInvariant(default, es);
    AfterAppend(default, es, Check(id));
    hide After, Upsert, Distinct, ResolvedOnce, TerminalIffSettled;
    var s := After(default, es);
    if id in s.tracker.pending {
      UpsertMembers(s.tracker.history, HistoryRecord(id, s.tracker.pending[id].cmdType, AckFailed, AckTimeout, default / MS));
    }
  }

  /** No pending command is forgotten: if its watching task is started and checks once the timeout is over, it is settled. */
  lemma NeverForgotten(default: int, es: seq<Event>, id: CmdId, wait: nat)
    requires id in After(default, es).tracker.pending
    requires wait >= Timeout(default, After(default, es).tracker.pending[id].cmdType)
    ensures id !in After(default, es + [Spawn(id)] + [Tick(wait)] + [Check(id)]).tracker.pending
  {
    RunInvariant(default, es);
    AfterAppend(default, es, Spawn(id));
    AfterAppend(default, es + [Spawn(id)], Tick(wait));
    AfterAppend(default, es + [Spawn(id)] + [Tick(wait)], Check(id));
    hide After, Upsert, Distinct, ResolvedOnce, ResultsFinal, TerminalIffSettled;
  }

  // ---- how late a timeout can be ----

  /** A watcher sleeps at most this long before it looks again. */
  const NAP := 500 * MS

  function Min(a: int, b: int): int {
    if a <= b then a else b
  }

  function Max(a: int, b: int): int {
    if a <= b then b else a
  }

  /** When the task of a command is due to run next: at once when it has been created or started, after its sleep when it has
      looked and found time left. */
  function Due(default: int, es: seq<Event>, id: CmdId): Option<int> {
    if es == [] then None
    else
      var before, e := es[..|es| - 1], es[|es| - 1];
      var s := After(default, before);
      if !Enabled(s, e) then Due(default, before, id)
      else if e == Spawn(id) || (e.CmdSent? && e.id == id) then Some(s.now)
      else if e == Check(id) && id in s.tracker.pending then
        var p := s.tracker.pending[id];
        Some(s.now + Min(p.timeout - (s.now - p.sentAt), NAP))
      else Due(default, before, id)
  }

  /** Throughout the run, no task of a pending command is more than d late. */
  ghost predicate Punctual(default: int, d: int, es: seq<Event>) {
    forall n, id :: 0 <= n <= |es| && id in After(default, es[..n]).tracker.pending && Due(default, es[..n], id).Some? ==>
      After(default, es[..n]).now <= Due(default, es[..n], id).value + d
  }

  /** Where the task of a command is, and when it is due. */
  ghost predicate Scheduled(d: int, s: State, due: Option<int>, id: CmdId) {
    && (id in s.tracker.pending || id in s.starting || id in s.watching ==> id in s.issued)
    && !(id in s.starting && id in s.watching)
    && (id in s.tracker.pending ==>
          var p := s.tracker.pending[id];
          && due.Some?
          && due.value <= p.sentAt + Max(p.timeout, d)
          && (id in s.starting ==> due.value == p.sentAt))
  }

  lemma ScheduledStep(default: int, d: nat, s: State, e: Event, due: Option<int>, due': Option<int>, id: CmdId)
    requires Enabled(s, e) && Scheduled(d, s, due, id)
    requires id in s.tracker.pending && due.Some? ==> s.now <= due.value + d
    requires due' == if e == Spawn(id) || (e.CmdSent? && e.id == id) then Some(s.now)
                     else if e == Check(id) && id in s.tracker.pending then
                       var p := s.tracker.pending[id];
                       Some(s.now + Min(p.timeout - (s.now - p.sentAt), NAP))
                     else due
    ensures Scheduled(d, Step(default, s, e), due', id)
  {
    hide Upsert, IsTerminal, AckStatusName;
  }

  lemma PunctualPrefix(default: int, d: int, es: seq<Event>, m: nat)
    requires Punctual(default, d, es) && m <= |es|
    ensures Punctual(default, d, es[..m])
  {
    hide After, Due;
    assert forall n :: 0 <= n <= m ==> es[..m][..n] == es[..n];
  }

  lemma {:induction false} SchedulesHold(default: int, d: nat, es: seq<Event>, id: CmdId)
    requires Punctual(default, d, es)
    ensures Scheduled(d, After(default, es), Due(default, es, id), id)
  {
    if es != [] {
      hide Step, Enabled, Scheduled;
      var before := es[..|es| - 1];
      PunctualPrefix(default, d, es, |es| - 1);
      SchedulesHold(default, d, before, id);
      assert before[..|before|] == before;
      if Enabled(After(default, before), es[|es| - 1]) {
        ScheduledStep(default, d, After(default, before), es[|es| - 1], Due(default, before, id), Due(default, es, id), id);
      }
    }
  }

  /** If no task is ever more than d late, a command that is still pending is at most d past its deadline: it was sent no
      longer ago than its timeout, or the delay if that is longer, and one more delay. */
  lemma SettledInTime(default: int, d: nat, es: seq<Event>, id: CmdId)
    requires Punctual(default, d, es)
    requires id in After(default, es).tracker.pending
    ensures var s := After(default, es);
            var p := s.tracker.pending[id];
            s.now <= p.sentAt + Max(Timeout(default, p.cmdType), d) + d
  {
    SchedulesHold(default, d, es, id);
    RunInvariant(default, es);
    hide After, Due;
    assert es[..|es|] == es;
  }

  // ---- the object ----

  class AckTracker {
    const default: int
    var now: int
    var pending: map<CmdId, Entry>
    var history: seq<HistoryRecord>
    ghost var resolutions: seq<Resolution>

    ghost function Value(): Tracker
      reads this
    {
      Tracker(pending, history, resolutions)
    }

    constructor (default: int)
      ensures Value() == INITIAL.tracker && this.default == default
    {
      this.default := default;
      now, pending, history, resolutions := 0, map[], [], [];
    }

    method UpsertHistory(record: HistoryRecord)
      modifies this`history
      ensures history == Upsert(old(history), record)
    {
      var index := 0;
      while index < |history|
        invariant 0 <= index <= |history|
        invariant forall k :: 0 <= k < index ==> history[k].id != record.id
        invariant history == old(history)
      {
        if history[index].id == record.id {
          history := history[index := record];
          return;
        }
        index := index + 1;
      }
      history := [record] + history;
      if |history| > HISTORY_LIMIT {
        history := history[..HISTORY_LIMIT];
      }
    }

    method SetResult(e: Entry, record: HistoryRecord)
      modifies this`resolutions
      ensures resolutions == Resolve(old(Value()), e, record, now)
    {
      if !e.done {
        resolutions := resolutions + [Resolution(record, e.sentAt, now)];
      }
    }

    method OnCmdSent(id: CmdId, cmdType: CmdType)
      modifies this`pending, this`history
      ensures Value() == Register(default, old(Value()), id, cmdType, now)
    {
      var timeout := if cmdType.NavGoal? then NAV_GOAL_TIMEOUT else default;
      pending := pending[id := Entry(cmdType, now, timeout, false)];
      UpsertHistory(HistoryRecord(id, cmdType, Sent, CommandSent, 0));
    }

    method OnCmdAck(data: Ack)
      modifies this`pending, this`history, this`resolutions
      ensures Value() == Acknowledge(old(Value()), data, now)
    {
      if data.id !in pending {
        return;
      }
      var entry := pending[data.id];
      var roundTrip := (now - entry.sentAt) / MS;
      var record := HistoryRecord(data.id, entry.cmdType, AckStatusName(data.status), FromRover, roundTrip);
      UpsertHistory(record);
      if IsTerminal(entry.cmdType, record.status) {
        pending := pending - {data.id};
        SetResult(entry, record);
      }
    }

    /** One turn of the watching task's loop; it goes on watching, or it has ended. */
    method WatchTimeout(id: CmdId) returns (watching: bool)
      modifies this`pending, this`history, this`resolutions
      ensures watching <==> id in old(pending) && !Expired(old(pending)[id], now)
      ensures Value() == if id in old(pending) && !watching then Expire(default, old(Value()), id, now) else old(Value())
    {
      if id !in pending {
        return false;
      }
      var entry := pending[id];
      var elapsed := now - entry.sentAt;
      var remaining := entry.timeout - elapsed;
      if remaining > 0 {
        return true;
      }
      pending := pending - {id};
      var record := HistoryRecord(id, entry.cmdType, AckFailed, AckTimeout, default / MS);
      UpsertHistory(record);
      SetResult(entry, record);
      return false;
    }

    method RecordLocalRejection(id: CmdId, cmdType: CmdType, message: string) returns (record: HistoryRecord)
      modifies this`history
      ensures record == HistoryRecord(id, cmdType, AckRejected, LocalReason(message), 0)
      ensures Value() == Reject(old(Value()), id, cmdType, message)
    {
      record := HistoryRecord(id, cmdType, AckRejected, LocalReason(message), 0);
      UpsertHistory(record);
    }
  }
}
