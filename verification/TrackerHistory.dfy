/** The control centre's command history, told from the sequence of events alone: which records a run writes, and which of them are
    shown in which order. */
module TrackerHistory {
  import opened Options
  import opened Commands
  import opened Tracking

  // ---- what a run writes ----

  datatype Wait = Wait(cmdType: CmdType, since: int)

  function Allowed(default: int, t: CmdType): int {
    if t.NavGoal? then 120_000_000_000 else default
  }

  /** A command that was sent and has neither a terminal acknowledgement nor run out of time: its type and when it was sent. */
  function Waiting(default: int, es: seq<Event>, id: CmdId): Option<Wait> {
    if es == [] then None
    else
      var before, e := es[..|es| - 1], es[|es| - 1];
      var s, w := After(default, before), Waiting(default, before, id);
      if !Enabled(s, e) then w
      else if e.CmdSent? && e.id == id then Some(Wait(e.cmdType, s.now))
      else if w.None? then None
      else if e.CmdAck? && e.ack.id == id && IsTerminal(w.value.cmdType, AckStatusName(e.ack.status)) then None
      else if e == Check(id) && s.now - w.value.since >= Allowed(default, w.value.cmdType) then None
      else w
  }

  /** The record the last event of a run writes, if any. */
  function RecordOf(default: int, es: seq<Event>): Option<HistoryRecord>
    requires es != []
  {
    var before, e := es[..|es| - 1], es[|es| - 1];
    var s := After(default, before);
    if !Enabled(s, e) then None
    else
      match e
      case CmdSent(id, t) => Some(HistoryRecord(id, t, Sent, CommandSent, 0))
      case Rejected(id, t, reason) => Some(HistoryRecord(id, t, AckRejected, LocalReason(reason), 0))
      case CmdAck(a) =>
        var w := Waiting(default, before, a.id);
        if w.None? then None
        else Some(HistoryRecord(a.id, w.value.cmdType, AckStatusName(a.status), FromRover, (s.now - w.value.since) / 1_000_000))
      case Check(id) =>
        var w := Waiting(default, before, id);
        if w.None? || s.now - w.value.since < Allowed(default, w.value.cmdType) then None
        else Some(HistoryRecord(id, w.value.cmdType, AckFailed, AckTimeout, default / 1_000_000))
      case _ => None
  }

  function Written(default: int, es: seq<Event>): seq<HistoryRecord> {
    if es == [] then []
    else
      var r := RecordOf(default, es);
      Written(default, es[..|es| - 1]) + if r.Some? then [r.value] else []
  }

  // ---- what is shown of it ----

  function LastOf(s: seq<CmdId>, n: nat): seq<CmdId> {
    if |s| <= n then s else s[|s| - n..]
  }

  /** The ids in the order in which they came to the front: a record comes to the front unless its id is among the last 50 that
      did. */
  function Entries(rs: seq<HistoryRecord>): seq<CmdId> {
    if rs == [] then []
    else
      var before, id := Entries(rs[..|rs| - 1]), rs[|rs| - 1].id;
      if id in LastOf(before, 50) then before else before + [id]
  }

  /** The last record written for an id. */
  function Latest(rs: seq<HistoryRecord>, id: CmdId): Option<HistoryRecord> {
    if rs == [] then None
    else if rs[|rs| - 1].id == id then Some(rs[|rs| - 1])
    else Latest(rs[..|rs| - 1], id)
  }

  /** The last 50 ids, newest first. */
  ghost predicate Listed(h: seq<HistoryRecord>, ids: seq<CmdId>) {
    && |h| == (if |ids| < 50 then |ids| else 50)
    && (forall k :: 0 <= k < |h| ==> h[k].id == ids[|ids| - 1 - k])
  }

  /** The history shows the last 50 ids that came to the front, newest first, each with its latest record. */
  ghost predicate Shows(h: seq<HistoryRecord>, rs: seq<HistoryRecord>) {
    Listed(h, Entries(rs)) && forall r :: r in h ==> Latest(rs, r.id) == Some(r)
  }

  // ---- one record ----

  ghost predicate Shown(h: seq<HistoryRecord>, id: CmdId) {
    exists k :: 0 <= k < |h| && h[k].id == id
  }

  lemma ShownIds(h: seq<HistoryRecord>, rs: seq<HistoryRecord>, id: CmdId)
    requires Shows(h, rs)
    ensures id in LastOf(Entries(rs), 50) <==> Shown(h, id)
  {
    hide Entries, Latest;
    var ids := Entries(rs);
    var l := LastOf(ids, 50);
    assert |l| == |h|;
    assert forall k :: 0 <= k < |h| ==> h[k].id == l[|l| - 1 - k];
    if id in l {
      var j :| 0 <= j < |l| && l[j] == id;
      assert h[|l| - 1 - j].id == id;
    }
  }

  lemma Snoc(rs: seq<HistoryRecord>, r: HistoryRecord)
    ensures Entries(rs + [r]) == if r.id in LastOf(Entries(rs), 50) then Entries(rs) else Entries(rs) + [r.id]
    ensures forall id :: Latest(rs + [r], id) == if r.id == id then Some(r) else Latest(rs, id)
  {
    assert (rs + [r])[..|rs|] == rs;
  }

  /** Every record is the written one or an older one of another id. */
  lemma LatestNext(h: seq<HistoryRecord>, rs: seq<HistoryRecord>, r: HistoryRecord, u: seq<HistoryRecord>)
    requires Shows(h, rs) && Listed(u, Entries(rs + [r]))
    requires forall x :: x in u ==> x == r || (x in h && x.id != r.id)
    ensures Shows(u, rs + [r])
  {
    hide Listed, LastOf;
    Snoc(rs, r);
    hide Entries, Latest;
  }

  lemma ListedFront(h: seq<HistoryRecord>, ids: seq<CmdId>, r: HistoryRecord)
    requires Listed(h, ids)
    ensures Listed(Capped([r] + h), ids + [r.id])
  {
    var u, all := Capped([r] + h), ids + [r.id];
    forall k | 0 <= k < |u| ensures u[k].id == all[|all| - 1 - k] {
      if k > 0 {
        assert u[k] == h[k - 1] && all[|all| - 1 - k] == ids[|ids| - 1 - (k - 1)];
      }
    }
  }

  lemma ListedNext(h: seq<HistoryRecord>, ids: seq<CmdId>, r: HistoryRecord)
    requires Listed(h, ids)
    ensures Listed(Upsert(h, r), if Shown(h, r.id) then ids else ids + [r.id])
  {
    hide Capped, Listed, IndexOf;
    var i := IndexOf(h, r.id);
    if i.None? {
      ListedFront(h, ids, r);
    } else {
      ListedSame(h, ids, r, i.value);
    }
  }

  lemma ListedSame(h: seq<HistoryRecord>, ids: seq<CmdId>, r: HistoryRecord, i: nat)
    requires Listed(h, ids) && i < |h| && h[i].id == r.id
    ensures Listed(h[i := r], ids)
  {
  }

  lemma ShowsNext(h: seq<HistoryRecord>, rs: seq<HistoryRecord>, r: HistoryRecord)
    requires Shows(h, rs) && Distinct(h) && |h| <= 50
    ensures Shows(Upsert(h, r), rs + [r])
  {
    hide Latest, Distinct, Upsert, Listed, Entries, LastOf;
    ShownIds(h, rs, r.id);
    Snoc(rs, r);
    UpsertMembers(h, r);
    ListedNext(h, Entries(rs), r);
    LatestNext(h, rs, r, Upsert(h, r));
  }

  // ---- runs ----

  /** What is pending is what waits. */
  lemma {:induction false} PendingWaits(default: int, es: seq<Event>, id: CmdId)
    ensures var p, w := After(default, es).tracker.pending, Waiting(default, es, id);
            && (id in p <==> w.Some?)
            && (id in p ==> p[id] == Entry(w.value.cmdType, w.value.since, Allowed(default, w.value.cmdType), false))
  {
    if es != [] {
      PendingWaits(default, es[..|es| - 1], id);
      hide Upsert, IsTerminal, AckStatusName;
    }
  }

  /** One step writes the record of its event into the history. */
  lemma StepWrites(default: int, es: seq<Event>)
    requires es != []
    ensures var s, s' := After(default, es[..|es| - 1]), After(default, es);
            var r := RecordOf(default, es);
            s'.tracker.history == if r.Some? then Upsert(s.tracker.history, r.value) else s.tracker.history
  {
    var e := es[|es| - 1];
    if e.CmdAck? {
      PendingWaits(default, es[..|es| - 1], e.ack.id);
    } else if e.Check? {
      PendingWaits(default, es[..|es| - 1], e.id);
    }
    hide Upsert, IsTerminal, AckStatusName, Waiting;
  }

  /** Over every run the history is the last 50 ids that came to the front, newest first, each with its latest record: SENT, what
      the rover acknowledged and after how long, a timeout, or a local rejection with its reason. */
  lemma {:induction false} HistoryExactly(default: int, es: seq<Event>)
    ensures Shows(After(default, es).tracker.history, Written(default, es))
  {
    if es != [] {
      hide Shows, Upsert, Step, RecordOf, TerminalIffSettled, ResolvedOnce, ResultsFinal, OnTime, Distinct;
      var before := es[..|es| - 1];
      HistoryExactly(default, before);
      RunInvariant(default, before);
      StepWrites(default, es);
      var r := RecordOf(default, es);
      if r.Some? {
        ShowsNext(After(default, before).tracker.history, Written(default, before), r.value);
      } else {
        assert Written(default, before) + [] == Written(default, before);
      }
    }
  }

  lemma {:induction false} WrittenGrows(default: int, es: seq<Event>, fs: seq<Event>)
    ensures Entries(Written(default, es)) <= Entries(Written(default, es + fs))
  {
    hide RecordOf, LastOf, Entries, After;
    if fs == [] {
      assert es + fs == es;
    } else {
      var all := es + fs;
      assert all[..|all| - 1] == es + fs[..|fs| - 1];
      WrittenGrows(default, es, fs[..|fs| - 1]);
      var rs, r := Written(default, es + fs[..|fs| - 1]), RecordOf(default, all);
      if r.Some? {
        Snoc(rs, r.value);
      } else {
        assert rs + [] == rs;
      }
    }
  }

  /** A command leaves the history only behind 50 others: then the history has 50 records, and all of them came to the front after
      it did. */
  lemma LeavesBehindFifty(default: int, es: seq<Event>, fs: seq<Event>, id: CmdId)
    requires Shown(After(default, es).tracker.history, id)
    requires !Shown(After(default, es + fs).tracker.history, id)
    ensures var h, ids := After(default, es + fs).tracker.history, Entries(Written(default, es + fs));
            && |h| == 50 && Distinct(h)
            && exists p :: 0 <= p < |ids| - 50 && ids[p] == id && forall k :: 0 <= k < 50 ==> h[k].id == ids[|ids| - 1 - k]
  {
    hide After, Written, Entries, Latest, TerminalIffSettled, ResolvedOnce, ResultsFinal, OnTime, Known;
    HistoryExactly(default, es);
    HistoryExactly(default, es + fs);
    RunInvariant(default, es + fs);
    WrittenGrows(default, es, fs);
    var h, ids := After(default, es).tracker.history, Entries(Written(default, es));
    var h', ids' := After(default, es + fs).tracker.history, Entries(Written(default, es + fs));
    var k :| 0 <= k < |h| && h[k].id == id;
    var p := |ids| - 1 - k;
    assert ids'[p] == id;
    if p >= |ids'| - 50 {
      RecentShown(h', Written(default, es + fs), p);
    }
  }

  lemma RecentShown(h: seq<HistoryRecord>, rs: seq<HistoryRecord>, p: nat)
    requires Shows(h, rs) && |Entries(rs)| - 50 <= p < |Entries(rs)|
    ensures Shown(h, Entries(rs)[p])
  {
    hide Entries;
    assert h[|Entries(rs)| - 1 - p].id == Entries(rs)[p];
  }

  // ---- rejections ----

  /** An id that is issued and waits for nothing. */
  ghost predicate Over(default: int, es: seq<Event>, id: CmdId) {
    id in After(default, es).issued && Waiting(default, es, id).None?
  }

  lemma IssuedStays(default: int, s: State, e: Event)
    ensures s.issued <= Next(default, s, e).issued
  {
    hide Acknowledge, Register, Expire, Reject, Expired;
  }

  lemma OverStays(default: int, es: seq<Event>, id: CmdId)
    requires es != [] && Over(default, es[..|es| - 1], id)
    ensures Over(default, es, id)
    ensures RecordOf(default, es).Some? ==> RecordOf(default, es).value.id != id
  {
    IssuedStays(default, After(default, es[..|es| - 1]), es[|es| - 1]);
    hide Next, IsTerminal, AckStatusName;
  }

  /** It is not written again. */
  lemma {:induction false} NotWrittenAgain(default: int, es: seq<Event>, fs: seq<Event>, id: CmdId)
    requires Over(default, es, id)
    ensures Over(default, es + fs, id)
    ensures Latest(Written(default, es + fs), id) == Latest(Written(default, es), id)
  {
    hide Over, Latest, RecordOf;
    if fs == [] {
      assert es + fs == es;
    } else {
      var all := es + fs;
      assert all[..|all| - 1] == es + fs[..|fs| - 1];
      NotWrittenAgain(default, es, fs[..|fs| - 1], id);
      OverStays(default, all, id);
      var rs, r := Written(default, es + fs[..|fs| - 1]), RecordOf(default, all);
      if r.Some? {
        Snoc(rs, r.value);
      } else {
        assert rs + [] == rs;
      }
    }
  }

  /** A local rejection comes to the front of the history as REJECTED with its reason, and nothing else is ever shown for it. */
  lemma RejectionShown(default: int, es: seq<Event>, id: CmdId, t: CmdType, reason: string, fs: seq<Event>)
    requires id !in After(default, es).issued
    ensures var r := HistoryRecord(id, t, AckRejected, LocalReason(reason), 0);
            var h, h' := After(default, es + [Rejected(id, t, reason)]).tracker.history,
                         After(default, es + [Rejected(id, t, reason)] + fs).tracker.history;
            && h != [] && h[0] == r
            && forall x :: x in h' && x.id == id ==> x == r
  {
    var e, r := Rejected(id, t, reason), HistoryRecord(id, t, AckRejected, LocalReason(reason), 0);
    var es1 := es + [e];
    assert es1[..|es|] == es;
    RunInvariant(default, es);
    PendingWaits(default, es, id);
    hide TerminalIffSettled, ResolvedOnce, ResultsFinal, OnTime, Distinct, Shows, Latest, Entries;
    assert RecordOf(default, es1) == Some(r);
    StepWrites(default, es1);
    Snoc(Written(default, es), r);
    NotWrittenAgain(default, es1, fs, id);
    HistoryExactly(default, es1 + fs);
    ShownLatest(After(default, es1 + fs).tracker.history, Written(default, es1 + fs), id);
    hide After;
    assert IndexOf(After(default, es).tracker.history, id).None?;
  }

  lemma ShownLatest(h: seq<HistoryRecord>, rs: seq<HistoryRecord>, id: CmdId)
    requires Shows(h, rs)
    ensures forall x :: x in h && x.id == id ==> Latest(rs, id) == Some(x)
  {
  }
}
