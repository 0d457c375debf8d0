/** How far apart two admissions of the same command id are, and when there are none. */
module Dedup {
  import opened Options
  import opened Commands
  import opened Rover

  /** When an id was last admitted. */
  function LastAt(a: seq<Admission>, id: CmdId): Option<int> {
    if a == [] then None
    else
      var l := a[|a| - 1];
      if l.cmd.id == id then Some(l.at) else LastAt(a[..|a| - 1], id)
  }

  ghost predicate InTime(a: seq<Admission>, now: int) {
    && (forall k :: 0 <= k < |a| ==> a[k].at <= now)
    && (forall i, j :: 0 <= i < j < |a| ==> a[i].at <= a[j].at)
  }

  ghost predicate Apart(evictS: int, a: seq<Admission>) {
    forall i, j :: 0 <= i < j < |a| && a[i].cmd.id == a[j].cmd.id ==> a[j].at - a[i].at >= (evictS + 1) * SECOND
  }

  /** The table holds the time of each id's last admission, and lacks an admitted id only if its age is over the limit. */
  ghost predicate TableInv(evictS: int, r: Receiver) {
    && (forall id :: id in r.seen ==> LastAt(r.admitted, id) == Some(r.seen[id]))
    && (forall id :: LastAt(r.admitted, id).Some? && id !in r.seen ==>
          AgeSeconds(r.now, LastAt(r.admitted, id).value) > evictS)
  }

  ghost predicate Inv(evictS: int, r: Receiver) {
    InTime(r.admitted, r.now) && Apart(evictS, r.admitted) && TableInv(evictS, r)
  }

  lemma {:induction false} LastIsLatest(a: seq<Admission>, now: int, id: CmdId)
    requires InTime(a, now)
    ensures forall k :: 0 <= k < |a| && a[k].cmd.id == id ==> LastAt(a, id).Some? && a[k].at <= LastAt(a, id).value
    ensures LastAt(a, id).Some? ==> LastAt(a, id).value <= now
  {
    if a != [] {
      LastIsLatest(a[..|a| - 1], now, id);
    }
  }

  lemma AgeGrows(now: int, later: int, at: int)
    requires at <= now <= later
    ensures AgeSeconds(now, at) <= AgeSeconds(later, at)
  {
  }

  lemma AgeMeans(evictS: int, now: int, at: int)
    requires at <= now && AgeSeconds(now, at) > evictS
    ensures now - at >= (evictS + 1) * SECOND
  {
  }

  lemma InvAdmit(evictS: int, r: Receiver, c: Command)
    requires Inv(evictS, r) && c.id !in r.seen
    ensures Inv(evictS, Admit(r, c))
  {
    var a := r.admitted + [Admission(c, r.now)];
    assert a[..|r.admitted|] == r.admitted;
    LastIsLatest(r.admitted, r.now, c.id);
    forall i, j | 0 <= i < j < |a| && a[i].cmd.id == a[j].cmd.id ensures a[j].at - a[i].at >= (evictS + 1) * SECOND {
      assert a[i] == r.admitted[i];
      if j < |r.admitted| {
        assert a[j] == r.admitted[j];
      } else {
        AgeMeans(evictS, r.now, LastAt(r.admitted, c.id).value);
      }
    }
  }

  lemma InvTick(evictS: int, r: Receiver, dt: nat)
    requires Inv(evictS, r)
    ensures Inv(evictS, r.(now := r.now + dt))
  {
    forall id | LastAt(r.admitted, id).Some? && id !in r.seen
      ensures AgeSeconds(r.now + dt, LastAt(r.admitted, id).value) > evictS
    {
      LastIsLatest(r.admitted, r.now, id);
      AgeGrows(r.now, r.now + dt, LastAt(r.admitted, id).value);
    }
  }

  lemma InvSweep(evictS: int, r: Receiver)
    requires Inv(evictS, r)
    ensures Inv(evictS, r.(seen := Swept(evictS, r.now, r.seen)))
  {
    hide InTime, Apart, LastAt, AgeSeconds;
  }

  lemma {:induction false} DedupHolds(evictS: int, es: seq<Event>)
    ensures Inv(evictS, After(evictS, es).receiver)
  {
    if es != [] {
      hide InTime, Apart, LastAt, AgeSeconds, Swept, Admit, Run;
      DedupHolds(evictS, es[..|es| - 1]);
      var s, e := After(evictS, es[..|es| - 1]), es[|es| - 1];
      if e.Tick? {
        InvTick(evictS, s.receiver, e.dt);
      } else if e.Sweep? {
        InvSweep(evictS, s.receiver);
      } else if e.Arrive? && Enabled(s, e) && Admits(s.receiver, e.msg) {
        InvAdmit(evictS, s.receiver, e.msg.value);
      }
    }
  }

  /** Two admissions of one id are at least the limit plus one whole second apart, because ages are cut off to seconds:
      with the default limit of 30 s, at least 31 s. */
  lemma AdmissionsApart(evictS: int, es: seq<Event>, i: nat, j: nat)
    requires i < j < |After(evictS, es).receiver.admitted|
    requires After(evictS, es).receiver.admitted[i].cmd.id == After(evictS, es).receiver.admitted[j].cmd.id
    ensures After(evictS, es).receiver.admitted[j].at - After(evictS, es).receiver.admitted[i].at >= (evictS + 1) * SECOND
  {
    DedupHolds(evictS, es);
  }

  /** After a sweep the table holds exactly the ids whose age since their last admission is within the limit, with the time
      of that admission. */
  lemma TableAfterSweep(evictS: int, es: seq<Event>, id: CmdId)
    ensures var r := After(evictS, es + [Sweep]).receiver;
            && (id in r.seen <==>
                 LastAt(r.admitted, id).Some? && AgeSeconds(r.now, LastAt(r.admitted, id).value) <= evictS)
            && (id in r.seen ==> r.seen[id] == LastAt(r.admitted, id).value)
  {
    assert (es + [Sweep])[..|es|] == es;
    DedupHolds(evictS, es);
  }

  // ---- time and arrivals ----

  /** The time that has passed. */
  function Elapsed(es: seq<Event>): int {
    if es == [] then 0
    else
      var e := es[|es| - 1];
      Elapsed(es[..|es| - 1]) + if e.Tick? then e.dt else 0
  }

  predicate ArrivesAs(e: Event, id: CmdId) {
    e.Arrive? && e.msg.Some? && e.msg.value.id == id && id.text != ""
  }

  /** Event j is a copy of the command that the network thread looks at: it is not busy with another message. */
  ghost predicate Heard(evictS: int, es: seq<Event>, j: nat, id: CmdId)
    requires j < |es|
  {
    ArrivesAs(es[j], id) && After(evictS, es[..j]).receiver.inFlight.None?
  }

  /** Two copies are heard at j and k, and a sweep at m in between finds the first one past the limit. */
  ghost predicate Evicted(evictS: int, es: seq<Event>, j: nat, m: nat, k: nat, id: CmdId)
    requires j < m < k < |es|
  {
    && Heard(evictS, es, j, id)
    && es[m].Sweep?
    && Elapsed(es[..m]) - Elapsed(es[..j]) >= (evictS + 1) * SECOND
    && Heard(evictS, es, k, id)
  }

  /** No copy of a command is heard after a sweep that came too long after an earlier copy. */
  ghost predicate NoLateCopy(evictS: int, es: seq<Event>) {
    forall j, m, k, id :: 0 <= j < m < k < |es| ==> !Evicted(evictS, es, j, m, k, id)
  }

  lemma {:induction false} ClockIsElapsed(evictS: int, es: seq<Event>)
    ensures After(evictS, es).receiver.now == Elapsed(es)
  {
    hide Run, Swept, Admits;
    if es != [] {
      ClockIsElapsed(evictS, es[..|es| - 1]);
    }
  }

  lemma {:induction false} ElapsedGrows(es: seq<Event>, j: nat)
    requires j <= |es|
    ensures Elapsed(es[..j]) <= Elapsed(es)
    decreases |es|
  {
    if j == |es| {
      assert es[..j] == es;
    } else {
      ElapsedGrows(es[..|es| - 1], j);
      assert es[..|es| - 1][..j] == es[..j];
    }
  }

  lemma HeardPrefix(evictS: int, es: seq<Event>, n: nat, j: nat, id: CmdId)
    requires j < n <= |es|
    ensures Heard(evictS, es[..n], j, id) <==> Heard(evictS, es, j, id)
  {
    assert es[..n][..j] == es[..j];
  }

  lemma EvictedPrefix(evictS: int, es: seq<Event>, n: nat, j: nat, m: nat, k: nat, id: CmdId)
    requires j < m < k < n <= |es|
    ensures Evicted(evictS, es[..n], j, m, k, id) <==> Evicted(evictS, es, j, m, k, id)
  {
    hide Heard, Elapsed;
    HeardPrefix(evictS, es, n, j, id);
    HeardPrefix(evictS, es, n, k, id);
    assert es[..n][..j] == es[..j] && es[..n][..m] == es[..m];
  }

  lemma NoLateCopyPrefix(evictS: int, es: seq<Event>, n: nat)
    requires NoLateCopy(evictS, es) && n <= |es|
    ensures NoLateCopy(evictS, es[..n])
  {
    hide Evicted;
    forall j, m, k, id | 0 <= j < m < k < n ensures !Evicted(evictS, es[..n], j, m, k, id) {
      EvictedPrefix(evictS, es, n, j, m, k, id);
    }
  }

  // ---- admitted once ----

  /** The id of a command is admitted although it has been before. */
  predicate Readmits(s: State, e: Event) {
    && e.Arrive?
    && Enabled(s, e)
    && Admits(s.receiver, e.msg)
    && LastAt(s.receiver.admitted, e.msg.value.id).Some?
  }

  ghost predicate NeverReadmits(evictS: int, es: seq<Event>) {
    es == [] || (NeverReadmits(evictS, es[..|es| - 1]) && !Readmits(After(evictS, es[..|es| - 1]), es[|es| - 1]))
  }

  ghost predicate DistinctIds(a: seq<Admission>) {
    forall i, j :: 0 <= i < j < |a| ==> a[i].cmd.id != a[j].cmd.id
  }

  lemma {:induction false} LastAtMember(a: seq<Admission>, id: CmdId)
    ensures LastAt(a, id).Some? <==> exists k :: 0 <= k < |a| && a[k].cmd.id == id
  {
    if a != [] {
      var n := |a| - 1;
      LastAtMember(a[..n], id);
      if LastAt(a[..n], id).Some? {
        var k :| 0 <= k < n && a[..n][k].cmd.id == id;
        assert a[k].cmd.id == id;
      } else if a[n].cmd.id != id {
        forall k | 0 <= k < |a| ensures a[k].cmd.id != id {
          assert k < n ==> a[..n][k] == a[k];
        }
      }
    }
  }

  lemma DistinctAppend(a: seq<Admission>, l: Admission)
    ensures DistinctIds(a + [l]) <==> DistinctIds(a) && LastAt(a, l.cmd.id).None?
  {
    LastAtMember(a, l.cmd.id);
    var b := a + [l];
    assert forall k :: 0 <= k < |a| ==> b[k] == a[k];
    if DistinctIds(b) {
      assert forall k :: 0 <= k < |a| ==> b[k].cmd.id != b[|a|].cmd.id;
    }
  }

  lemma {:induction false} DistinctUnlessReadmitted(evictS: int, es: seq<Event>)
    ensures DistinctIds(After(evictS, es).receiver.admitted) <==> NeverReadmits(evictS, es)
  {
    if es != [] {
      hide DistinctIds, LastAt, Swept, Run;
      var s, e := After(evictS, es[..|es| - 1]), es[|es| - 1];
      DistinctUnlessReadmitted(evictS, es[..|es| - 1]);
      if e.Arrive? && Enabled(s, e) && Admits(s.receiver, e.msg) {
        DistinctAppend(s.receiver.admitted, Admission(e.msg.value, s.receiver.now));
      }
    }
  }

  // ---- how the network thread's state changes ----

  lemma LastAppend(a: seq<Admission>, l: Admission, id: CmdId)
    ensures LastAt(a + [l], id) == if l.cmd.id == id then Some(l.at) else LastAt(a, id)
  {
    assert (a + [l])[..|a|] == a;
  }

  /** Nothing changes for an id, or a copy of it is heard and missing from the table, or a sweep removes it. */
  lemma IdStep(evictS: int, s: State, e: Event, id: CmdId)
    ensures var r, r' := s.receiver, Next(evictS, s, e).receiver;
            if ArrivesAs(e, id) && r.inFlight.None? && id !in r.seen
            then id in r'.seen && LastAt(r'.admitted, id) == Some(r.now)
            else
              && LastAt(r'.admitted, id) == LastAt(r.admitted, id)
              && (id in r'.seen <==> id in r.seen && (e.Sweep? ==> AgeSeconds(r.now, r.seen[id]) <= evictS))
  {
    hide LastAt, AgeSeconds, Run, Push, GoalAnswered, GoalEnded, CancelAnswered;
    if e.Arrive? && Enabled(s, e) && Admits(s.receiver, e.msg) {
      LastAppend(s.receiver.admitted, Admission(e.msg.value, s.receiver.now), id);
    }
  }

  lemma AgeExactly(evictS: int, now: int, at: int)
    requires at <= now
    ensures AgeSeconds(now, at) > evictS <==> now - at >= (evictS + 1) * SECOND
  {
  }

  lemma ReadmitsMeans(s: State, e: Event, id: CmdId)
    requires ArrivesAs(e, id)
    ensures Readmits(s, e) <==>
              s.receiver.inFlight.None? && id !in s.receiver.seen && LastAt(s.receiver.admitted, id).Some?
  {
    hide LastAt;
  }

  // ---- a readmission has a sweep behind it ----

  /** The last admission of an id is a copy that was heard. */
  lemma {:induction false} AdmissionHeard(evictS: int, es: seq<Event>, id: CmdId) returns (j: nat)
    requires LastAt(After(evictS, es).receiver.admitted, id).Some?
    ensures j < |es| && Heard(evictS, es, j, id)
    ensures LastAt(After(evictS, es).receiver.admitted, id) == Some(Elapsed(es[..j]))
  {
    if es != [] {
      var n := |es| - 1;
      var s := After(evictS, es[..n]);
      IdStep(evictS, s, es[n], id);
      hide LastAt, Next, Heard, Elapsed;
      if ArrivesAs(es[n], id) && s.receiver.inFlight.None? && id !in s.receiver.seen {
        j := n;
        ClockIsElapsed(evictS, es[..n]);
        HeardNow(evictS, es, n, id);
      } else {
        j := AdmissionHeard(evictS, es[..n], id);
        HeardPrefix(evictS, es, n, j, id);
        assert es[..n][..j] == es[..j];
      }
    }
  }

  lemma HeardNow(evictS: int, es: seq<Event>, j: nat, id: CmdId)
    requires j < |es| && ArrivesAs(es[j], id) && After(evictS, es[..j]).receiver.inFlight.None?
    ensures Heard(evictS, es, j, id)
  {
  }

  /** An admitted id that is missing from the table was swept out too long after its admission. */
  lemma {:induction false} MissingWasSwept(evictS: int, es: seq<Event>, id: CmdId) returns (j: nat, m: nat)
    requires LastAt(After(evictS, es).receiver.admitted, id).Some? && id !in After(evictS, es).receiver.seen
    ensures j < m < |es| && Heard(evictS, es, j, id) && es[m].Sweep?
    ensures Elapsed(es[..m]) - Elapsed(es[..j]) >= (evictS + 1) * SECOND
  {
    if es != [] {
      var n := |es| - 1;
      var s := After(evictS, es[..n]);
      IdStep(evictS, s, es[n], id);
      TableTimes(evictS, es[..n], id);
      hide LastAt, Next, Heard, Elapsed, AgeSeconds;
      if id in s.receiver.seen {
        j := AdmissionHeard(evictS, es[..n], id);
        m := n;
        AgeExactly(evictS, s.receiver.now, s.receiver.seen[id]);
        ClockIsElapsed(evictS, es[..n]);
      } else {
        j, m := MissingWasSwept(evictS, es[..n], id);
      }
      HeardPrefix(evictS, es, n, j, id);
      assert es[..n][..j] == es[..j] && (m < n ==> es[..n][..m] == es[..m]);
    }
  }

  /** What the table says about an id. */
  lemma TableTimes(evictS: int, es: seq<Event>, id: CmdId)
    ensures var r := After(evictS, es).receiver;
            && (id in r.seen ==> LastAt(r.admitted, id) == Some(r.seen[id]))
            && (LastAt(r.admitted, id).Some? ==> LastAt(r.admitted, id).value <= r.now)
  {
    DedupHolds(evictS, es);
    LastIsLatest(After(evictS, es).receiver.admitted, After(evictS, es).receiver.now, id);
  }

  lemma ReadmissionIsLate(evictS: int, es: seq<Event>, n: nat)
    requires n < |es| && Readmits(After(evictS, es[..n]), es[n])
    ensures !NoLateCopy(evictS, es)
  {
    var id := es[n].msg.value.id;
    HeardNow(evictS, es, n, id);
    hide LastAt, Heard, After, Elapsed;
    var j, m := MissingWasSwept(evictS, es[..n], id);
    HeardPrefix(evictS, es, n, j, id);
    assert es[..n][..j] == es[..j] && es[..n][..m] == es[..m];
    assert Evicted(evictS, es, j, m, n, id);
  }

  // ---- a sweep has a readmission behind it ----

  /** Without a readmission, the last admission stays the last, and what is missing stays missing. */
  lemma {:induction false} Stays(evictS: int, es: seq<Event>, i: nat, id: CmdId)
    requires NeverReadmits(evictS, es) && i <= |es|
    requires LastAt(After(evictS, es[..i]).receiver.admitted, id).Some?
    ensures var r, r' := After(evictS, es[..i]).receiver, After(evictS, es).receiver;
            && LastAt(r'.admitted, id) == LastAt(r.admitted, id)
            && (id !in r.seen ==> id !in r'.seen)
    decreases |es|
  {
    if i == |es| {
      assert es[..i] == es;
    } else {
      var n := |es| - 1;
      assert es[..n][..i] == es[..i];
      Stays(evictS, es[..n], i, id);
      IdStep(evictS, After(evictS, es[..n]), es[n], id);
      if ArrivesAs(es[n], id) {
        ReadmitsMeans(After(evictS, es[..n]), es[n], id);
      }
      hide LastAt, Next, Readmits;
    }
  }

  lemma {:induction false} NeverReadmitsPrefix(evictS: int, es: seq<Event>, n: nat)
    requires NeverReadmits(evictS, es) && n <= |es|
    ensures NeverReadmits(evictS, es[..n])
    decreases |es|
  {
    if n == |es| {
      assert es[..n] == es;
    } else {
      NeverReadmitsPrefix(evictS, es[..|es| - 1], n);
      assert es[..|es| - 1][..n] == es[..n];
    }
  }

  /** A copy that is heard is in the table afterwards, with an admission no later than now. */
  lemma HeardIsAdmitted(evictS: int, es: seq<Event>, j: nat, id: CmdId)
    requires j < |es| && Heard(evictS, es, j, id)
    ensures var last := LastAt(After(evictS, es[..j + 1]).receiver.admitted, id);
            last.Some? && last.value <= Elapsed(es[..j])
  {
    assert es[..j + 1][..j] == es[..j];
    IdStep(evictS, After(evictS, es[..j]), es[j], id);
    TableTimes(evictS, es[..j], id);
    ClockIsElapsed(evictS, es[..j]);
  }

  /** A sweep too long after an admission leaves the id out of the table. */
  lemma SweptOut(evictS: int, es: seq<Event>, m: nat, id: CmdId)
    requires m < |es| && es[m].Sweep?
    requires var last := LastAt(After(evictS, es[..m]).receiver.admitted, id);
             last.Some? && Elapsed(es[..m]) - last.value >= (evictS + 1) * SECOND
    ensures id !in After(evictS, es[..m + 1]).receiver.seen
  {
    assert es[..m + 1][..m] == es[..m];
    var s := After(evictS, es[..m]);
    IdStep(evictS, s, es[m], id);
    TableTimes(evictS, es[..m], id);
    ClockIsElapsed(evictS, es[..m]);
    AgeExactly(evictS, s.receiver.now, LastAt(s.receiver.admitted, id).value);
    hide LastAt, AgeSeconds, Next, After, Elapsed;
  }

  lemma LateIsReadmitted(evictS: int, es: seq<Event>, j: nat, m: nat, k: nat, id: CmdId)
    requires j < m < k < |es| && Evicted(evictS, es, j, m, k, id)
    ensures !NeverReadmits(evictS, es)
  {
    hide LastAt, AgeSeconds, Next, Elapsed, Readmits, After, NeverReadmits;
    if NeverReadmits(evictS, es) {
      HeardIsAdmitted(evictS, es, j, id);
      StaysUpTo(evictS, es, j + 1, m, id);
      SweptOut(evictS, es, m, id);
      StaysUpTo(evictS, es, j + 1, m + 1, id);
      StaysUpTo(evictS, es, m + 1, k, id);
      ReadmitsMeans(After(evictS, es[..k]), es[k], id);
      NoReadmissionAt(evictS, es, k);
    }
  }

  lemma StaysUpTo(evictS: int, es: seq<Event>, i: nat, n: nat, id: CmdId)
    requires NeverReadmits(evictS, es) && i <= n <= |es|
    requires LastAt(After(evictS, es[..i]).receiver.admitted, id).Some?
    ensures var r, r' := After(evictS, es[..i]).receiver, After(evictS, es[..n]).receiver;
            && LastAt(r'.admitted, id) == LastAt(r.admitted, id)
            && (id !in r.seen ==> id !in r'.seen)
  {
    hide LastAt, After, NeverReadmits;
    NeverReadmitsPrefix(evictS, es, n);
    assert es[..n][..i] == es[..i];
    Stays(evictS, es[..n], i, id);
  }

  lemma NoReadmissionAt(evictS: int, es: seq<Event>, k: nat)
    requires NeverReadmits(evictS, es) && k < |es|
    ensures !Readmits(After(evictS, es[..k]), es[k])
  {
    NeverReadmitsPrefix(evictS, es, k + 1);
    assert es[..k + 1][..k] == es[..k];
  }

  // ---- exactly ----

  lemma {:induction false} FirstReadmission(evictS: int, es: seq<Event>) returns (n: nat)
    requires !NeverReadmits(evictS, es)
    ensures n < |es| && Readmits(After(evictS, es[..n]), es[n])
  {
    if es != [] {
      n := |es| - 1;
      if !NeverReadmits(evictS, es[..n]) {
        var before := es[..n];
        n := FirstReadmission(evictS, before);
        assert before[..n] == es[..n];
      }
    }
  }

  /** In a run every id is admitted at most once if and only if no copy of a command is heard after a sweep that came the
      limit plus one second or more after an earlier copy. */
  lemma AdmittedOnceExactly(evictS: int, es: seq<Event>)
    ensures DistinctIds(After(evictS, es).receiver.admitted) <==> NoLateCopy(evictS, es)
  {
    hide DistinctIds, NeverReadmits, After, Readmits, Evicted;
    DistinctUnlessReadmitted(evictS, es);
    if !NeverReadmits(evictS, es) {
      var n := FirstReadmission(evictS, es);
      ReadmissionIsLate(evictS, es, n);
    } else {
      forall j, m, k, id | 0 <= j < m < k < |es| ensures !Evicted(evictS, es, j, m, k, id) {
        if Evicted(evictS, es, j, m, k, id) {
          LateIsReadmitted(evictS, es, j, m, k, id);
        }
      }
    }
  }

  /** Copies of one command arrive within less than the limit plus one second of each other. */
  ghost predicate PromptCopies(evictS: int, es: seq<Event>) {
    forall j, k, id :: 0 <= j < k < |es| && ArrivesAs(es[j], id) && ArrivesAs(es[k], id) ==>
      Elapsed(es[..k]) - Elapsed(es[..j]) < (evictS + 1) * SECOND
  }

  /** If the copies of each command arrive promptly, no copy is late. */
  lemma PromptCopiesSuffice(evictS: int, es: seq<Event>)
    requires PromptCopies(evictS, es)
    ensures NoLateCopy(evictS, es)
  {
    hide Elapsed, After;
    forall j, m, k, id | 0 <= j < m < k < |es| ensures !Evicted(evictS, es, j, m, k, id) {
      ElapsedGrows(es[..k], m);
      assert es[..k][..m] == es[..m];
    }
  }
}
