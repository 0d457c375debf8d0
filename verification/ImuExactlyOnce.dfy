/** Which samples reach the tracker between two tracked frames, and what a throwing registration costs in each node. */
module ImuExactlyOnce {
  import opened Quaternion
  import opened ImuOrdering
  import opened ImuQueue

  function NewerThan(p: seq<Imu>, t: int): seq<Imu> {
    if p == [] then [] else (if p[0].ts > t then [p[0]] else []) + NewerThan(p[1..], t)
  }

  /** The samples strictly between two stamps. */
  function Window(p: seq<Imu>, lo: int, hi: int): seq<Imu> {
    if p == [] then [] else (if lo < p[0].ts < hi then [p[0]] else []) + Window(p[1..], lo, hi)
  }

  // ---- filters ----

  lemma Assoc<T>(a: seq<T>, b: seq<T>, c: seq<T>)
    ensures a + (b + c) == (a + b) + c
  {
  }

  lemma {:induction false} NewerThanConcat(p: seq<Imu>, q: seq<Imu>, t: int)
    ensures NewerThan(p + q, t) == NewerThan(p, t) + NewerThan(q, t)
  {
    if p == [] {
      assert p + q == q;
    } else {
      NewerThanConcat(p[1..], q, t);
      assert (p + q)[1..] == p[1..] + q && (p + q)[0] == p[0];
      Assoc(if p[0].ts > t then [p[0]] else [], NewerThan(p[1..], t), NewerThan(q, t));
    }
  }

  lemma {:induction false} WindowConcat(p: seq<Imu>, q: seq<Imu>, lo: int, hi: int)
    ensures Window(p + q, lo, hi) == Window(p, lo, hi) + Window(q, lo, hi)
  {
    if p == [] {
      assert p + q == q;
    } else {
      WindowConcat(p[1..], q, lo, hi);
      assert (p + q)[1..] == p[1..] + q && (p + q)[0] == p[0];
      Assoc(if lo < p[0].ts < hi then [p[0]] else [], Window(p[1..], lo, hi), Window(q, lo, hi));
    }
  }

  lemma {:induction false} WindowEmpty(p: seq<Imu>, lo: int, hi: int)
    requires forall k :: 0 <= k < |p| ==> !(lo < p[k].ts < hi)
    ensures Window(p, lo, hi) == []
  {
    if p != [] {
      WindowEmpty(p[1..], lo, hi);
    }
  }

  lemma {:induction false} WindowIsNewer(p: seq<Imu>, lo: int, hi: int)
    requires forall k :: 0 <= k < |p| ==> p[k].ts < hi
    ensures Window(p, lo, hi) == NewerThan(p, lo)
  {
    if p != [] {
      WindowIsNewer(p[1..], lo, hi);
    }
  }

  lemma {:induction false} WindowMembers(p: seq<Imu>, lo: int, hi: int)
    ensures forall m :: m in Window(p, lo, hi) <==> m in p && lo < m.ts < hi
  {
    if p != [] {
      WindowMembers(p[1..], lo, hi);
      assert forall m :: m in p <==> m == p[0] || m in p[1..];
    }
  }

  lemma {:induction false} NewerMembers(p: seq<Imu>, t: int)
    ensures forall m :: m in NewerThan(p, t) <==> m in p && m.ts > t
  {
    if p != [] {
      NewerMembers(p[1..], t);
      assert forall m :: m in p <==> m == p[0] || m in p[1..];
    }
  }

  // ---- one flush ----

  /** Without throws both forms register exactly the newer samples of the part they take, and take everything older than
      the frame. */
  lemma {:induction false} FlushWithoutThrows(p: seq<Imu>, last: int, ts: int)
    ensures var r := Register(p, last, ts, {});
            && r == RegisterAll(p, last, ts, {})
            && |r.rest| <= |p| && r.rest == p[|p| - |r.rest|..]
            && r.registered == NewerThan(p[..|p| - |r.rest|], last)
            && (r.rest != [] ==> r.rest[0].ts >= ts)
  {
    if p == [] || p[0].ts >= ts {
      assert p[..0] == [];
    } else {
      FlushWithoutThrows(p[1..], last, ts);
      var rest := Register(p, last, ts, {}).rest;
      var n := |p| - |rest|;
      SliceSlice(p, 1, n - 1);
      assert p[..n][1..] == p[1..][..n - 1];
    }
  }

  /** Some sample the flush could register throws, and another one waits behind it. */
  ghost predicate ThrowsEarly(p: seq<Imu>, last: int, ts: int, throws: set<int>) {
    exists k :: 0 <= k < |p| - 1 && last < p[k].ts && p[k].ts in throws && p[k + 1].ts < ts
  }

  lemma {:induction false} RestNotGrown(p: seq<Imu>, last: int, ts: int, throws: set<int>)
    ensures |RegisterAll(p, last, ts, throws).rest| <= |p|
    ensures p != [] && p[0].ts < ts ==> |RegisterAll(p, last, ts, throws).rest| < |p|
  {
    if p != [] && p[0].ts < ts {
      RestNotGrown(p[1..], last, ts, throws);
    }
  }

  /** The two forms of the flush have the same effect exactly if no registration throws with samples still to come. */
  lemma {:induction false} FormsAgree(p: seq<Imu>, last: int, ts: int, throws: set<int>)
    requires Increasing(p)
    ensures Register(p, last, ts, throws) == RegisterAll(p, last, ts, throws) <==> !ThrowsEarly(p, last, ts, throws)
  {
    if p == [] {
    } else if p[0].ts >= ts {
      assert forall k :: 0 < k < |p| ==> p[0].ts < p[k].ts;
    } else {
      var t := p[1..];
      IncreasingTail(p, 1);
      FormsAgree(t, last, ts, throws);
      assert forall k :: 0 <= k < |t| ==> t[k] == p[k + 1];
      if last < p[0].ts && p[0].ts in throws {
        if t != [] && t[0].ts < ts {
          RestNotGrown(t, last, ts, throws);
          assert p[0 + 1].ts < ts;
        } else {
          assert RegisterAll(p, last, ts, throws) == RegisterAll(t, last, ts, throws) == Flushed([], t);
          assert forall k :: 0 < k < |t| ==> t[0].ts < t[k].ts;
          assert forall k :: 0 <= k < |t| ==> t[k].ts >= ts;
        }
      } else {
        EarlyTail(p, last, ts, throws);
        var r, a := Register(t, last, ts, throws), RegisterAll(t, last, ts, throws);
        ConsInjective(p[0], r.registered, a.registered);
      }
    }
  }

  lemma ConsInjective(m: Imu, a: seq<Imu>, b: seq<Imu>)
    ensures [m] + a == [m] + b <==> a == b
  {
    assert ([m] + a)[1..] == a && ([m] + b)[1..] == b;
  }

  lemma EarlyTail(p: seq<Imu>, last: int, ts: int, throws: set<int>)
    requires p != [] && !(last < p[0].ts && p[0].ts in throws)
    ensures ThrowsEarly(p, last, ts, throws) <==> ThrowsEarly(p[1..], last, ts, throws)
  {
    var t := p[1..];
    if ThrowsEarly(p, last, ts, throws) {
      var k :| 0 <= k < |p| - 1 && last < p[k].ts && p[k].ts in throws && p[k + 1].ts < ts;
      assert t[k - 1] == p[k] && t[k - 1 + 1] == p[k + 1];
    }
    if ThrowsEarly(t, last, ts, throws) {
      var k :| 0 <= k < |t| - 1 && last < t[k].ts && t[k].ts in throws && t[k + 1].ts < ts;
      assert p[k + 1] == t[k] && p[k + 1 + 1] == t[k + 1];
    }
  }

  // ---- runs ----

  lemma {:induction false} RunConcat(cfg: Node, s: State, a: seq<Event>, b: seq<Event>)
    ensures Run(cfg, s, a + b) == Run(cfg, Run(cfg, s, a), b)
  {
    if b == [] {
      assert a + b == a;
    } else {
      var n := |b| - 1;
      RunConcat(cfg, s, a, b[..n]);
      assert (a + b)[..|a| + n] == a + b[..n];
    }
  }

  /** No frame succeeds in the run and no registration throws. */
  ghost predicate Quiet(cfg: Node, s: State, es: seq<Event>) {
    forall k :: 0 <= k < |es| ==>
      !Succeeds(Run(cfg, s, es[..k]), es[k]) && (es[k].Frame? ==> es[k].registerThrows == {})
  }

  /** After a tracked frame and a quiet run, what was registered since. */
  ghost predicate Segment(s1: State, s: State) {
    && Inv(s) && s.ready && s.lastTrack == s1.lastTrack
    && s1.accepted <= s.accepted
    && 0 <= Consumed(s1) <= Consumed(s) <= |s.accepted|
    && s.trace == s1.trace + Calls(NewerThan(s.accepted[Consumed(s1)..Consumed(s)], s1.lastTrack))
  }

  lemma CallsConcat(t: seq<Call>, a: seq<Imu>, b: seq<Imu>)
    ensures t + Calls(a) + Calls(b) == t + Calls(a + b)
  {
  }

  /** A flush without throws takes the next part of the accepted samples, up to the frame. */
  lemma FlushTakes(cfg: Node, s: State, ts: int)
    requires cfg.useImu && QueueInv(s) && s.ready && s.lastTrack != 0
    ensures var f := Flush(cfg, s, ts, {});
            var c, c' := Consumed(s), Consumed(AfterFlush(s, f));
            && 0 <= c <= c' <= |s.accepted|
            && f.registered == NewerThan(s.accepted[c..c'], s.lastTrack)
            && (f.rest != [] ==> f.rest[0].ts >= ts)
  {
    FlushWithoutThrows(s.pending, s.lastTrack, ts);
    var f := Flush(cfg, s, ts, {});
    var c, d := Consumed(s), |s.pending| - |f.rest|;
    assert s.accepted[c..c + d] == s.pending[..d];
  }

  /** A flush without throws extends the segment. */
  lemma SegmentFlush(cfg: Node, s1: State, s: State, ts: int)
    requires cfg.useImu && Segment(s1, s) && s1.lastTrack != 0
    ensures Segment(s1, AfterFlush(s, Flush(cfg, s, ts, {})))
    ensures var s' := AfterFlush(s, Flush(cfg, s, ts, {})); s'.pending != [] ==> s'.pending[0].ts >= ts
  {
    hide Inv, FlushOk, Flush, QueueInv;
    var f := Flush(cfg, s, ts, {});
    FlushFacts(cfg, s, ts, {});
    InvFlush(s, f, ts);
    InvQueue(s);
    FlushTakes(cfg, s, ts);
    var s' := AfterFlush(s, f);
    SegmentExtend(s1, s.trace, s.accepted, Consumed(s1), Consumed(s), Consumed(s'));
  }

  lemma SegmentExtend(s1: State, t: seq<Call>, a: seq<Imu>, c1: nat, c: nat, c': nat)
    requires c1 <= c <= c' <= |a|
    requires t == s1.trace + Calls(NewerThan(a[c1..c], s1.lastTrack))
    ensures t + Calls(NewerThan(a[c..c'], s1.lastTrack)) == s1.trace + Calls(NewerThan(a[c1..c'], s1.lastTrack))
  {
    assert a[c1..c'] == a[c1..c] + a[c..c'];
    NewerThanConcat(a[c1..c], a[c..c'], s1.lastTrack);
    CallsConcat(s1.trace, NewerThan(a[c1..c], s1.lastTrack), NewerThan(a[c..c'], s1.lastTrack));
  }

  lemma InvQueue(s: State)
    requires Inv(s)
    ensures QueueInv(s)
  {
  }

  lemma SegmentStep(cfg: Node, s1: State, s: State, e: Event)
    requires cfg.useImu && Segment(s1, s) && s1.lastTrack != 0
    requires !Succeeds(s, e) && (e.Frame? ==> e.registerThrows == {})
    ensures Segment(s1, Step(cfg, s, e))
  {
    if Reaches(s, e) {
      hide Segment, AfterFlush, Flush;
      SegmentFlush(cfg, s1, s, e.ts);
    } else {
      InvStep(cfg, s, e);
      InvQueue(s);
      hide Inv;
      var s' := Step(cfg, s, e);
      assert s'.accepted[Consumed(s1)..Consumed(s')] == s.accepted[Consumed(s1)..Consumed(s)];
    }
  }

  lemma {:induction false} SegmentRun(cfg: Node, s1: State, es: seq<Event>)
    requires cfg.useImu && Inv(s1) && s1.ready && s1.lastTrack != 0 && Quiet(cfg, s1, es)
    ensures Segment(s1, Run(cfg, s1, es))
  {
    if es == [] {
      assert s1.accepted[Consumed(s1)..Consumed(s1)] == [];
      assert s1.trace == s1.trace + Calls([]);
    } else {
      var n := |es| - 1;
      assert forall k :: 0 <= k < n ==> es[..n][..k] == es[..k];
      SegmentRun(cfg, s1, es[..n]);
      SegmentStep(cfg, s1, Run(cfg, s1, es[..n]), es[n]);
    }
  }

  // ---- two consecutive tracked frames ----

  /** f1 is tracked after pre, f2 is the next tracked frame, with mid in between. */
  ghost predicate Consecutive(cfg: Node, pre: seq<Event>, f1: Event, mid: seq<Event>, f2: Event) {
    var s1 := After(cfg, pre + [f1]);
    && cfg.useImu
    && Succeeds(After(cfg, pre), f1)
    && Quiet(cfg, s1, mid)
    && Succeeds(Run(cfg, s1, mid), f2) && f2.registerThrows == {}
  }

  /** The samples registered between the two frames. */
  function Between(cfg: Node, pre: seq<Event>, f1: Event, mid: seq<Event>, f2: Event): seq<Imu> {
    var s1, s2 := After(cfg, pre + [f1]), After(cfg, pre + [f1] + mid + [f2]);
    if 0 <= Consumed(s1) <= Consumed(s2) <= |s2.accepted|
    then NewerThan(s2.accepted[Consumed(s1)..Consumed(s2)], s1.lastTrack)
    else []
  }

  lemma AfterSuccess(cfg: Node, pre: seq<Event>, f1: Event)
    requires Succeeds(After(cfg, pre), f1)
    ensures var s1 := After(cfg, pre + [f1]);
            s1 == Step(cfg, After(cfg, pre), f1) && Inv(s1) && s1.ready && s1.lastTrack == f1.ts
  {
    assert (pre + [f1])[..|pre|] == pre;
    InvRun(cfg, pre + [f1]);
  }

  /** The trace between the two frames is Between, the frame f2 follows, and no accepted sample older than f2 is left in
      the queue. */
  lemma TraceBetween(cfg: Node, pre: seq<Event>, f1: Event, mid: seq<Event>, f2: Event)
    requires Consecutive(cfg, pre, f1, mid, f2) && f1.ts != 0
    ensures var s1, s2 := After(cfg, pre + [f1]), After(cfg, pre + [f1] + mid + [f2]);
            && Inv(s2) && 0 <= Consumed(s1) <= Consumed(s2) <= |s2.accepted| && f1.ts < f2.ts
            && s1.lastTrack == f1.ts
            && s2.accepted == Run(cfg, s1, mid).accepted
            && s2.trace == s1.trace + Calls(Between(cfg, pre, f1, mid, f2)) + [Tracked(f2.ts)]
            && (forall k :: Consumed(s2) <= k < |s2.accepted| ==> s2.accepted[k].ts >= f2.ts)
  {
    var s1 := After(cfg, pre + [f1]);
    AfterSuccess(cfg, pre, f1);
    SegmentRun(cfg, s1, mid);
    var s := Run(cfg, s1, mid);
    RunConcat(cfg, INITIAL, pre + [f1], mid);
    var all := pre + [f1] + mid + [f2];
    assert all[..|all| - 1] == pre + [f1] + mid;
    assert After(cfg, all) == Step(cfg, s, f2);
    hide Run, Inv, Segment;
    FinalFrame(cfg, s1, s, f2);
  }

  lemma FinalFrame(cfg: Node, s1: State, s: State, f2: Event)
    requires cfg.useImu && Segment(s1, s) && s1.lastTrack != 0 && Succeeds(s, f2) && f2.registerThrows == {}
    ensures var s2 := Step(cfg, s, f2);
            && Inv(s2) && 0 <= Consumed(s1) <= Consumed(s2) <= |s2.accepted| && s1.lastTrack < f2.ts
            && s2.accepted == s.accepted
            && s2.trace == s1.trace + Calls(NewerThan(s2.accepted[Consumed(s1)..Consumed(s2)], s1.lastTrack))
                           + [Tracked(f2.ts)]
            && (forall k :: Consumed(s2) <= k < |s2.accepted| ==> s2.accepted[k].ts >= f2.ts)
  {
    hide Inv, Flush;
    SegmentFlush(cfg, s1, s, f2.ts);
    var s' := AfterFlush(s, Flush(cfg, s, f2.ts, {}));
    InvTrack(s', f2.ts);
    InvQueue(s');
    hide AfterFlush;
    LeftNewer(s', f2.ts);
  }

  lemma LeftNewer(s: State, ts: int)
    requires QueueInv(s) && (s.pending != [] ==> s.pending[0].ts >= ts)
    ensures forall k :: Consumed(s) <= k < |s.accepted| ==> s.accepted[k].ts >= ts
  {
    var c := Consumed(s);
    forall k | c <= k < |s.accepted| ensures s.accepted[k].ts >= ts {
      assert s.pending[0] == s.accepted[c];
    }
  }

  ghost predicate NoneBetween(a: seq<Imu>, c0: int, c1: int, lo: int, hi: int) {
    forall k :: 0 <= c0 <= k < c1 && k < |a| ==> !(lo < a[k].ts < hi)
  }

  /** Nothing from between the frames left the queue before f1 was tracked, and nothing as new as f2 before f2 was. */
  ghost predicate NothingEarly(s1: State, s2: State, t1: int, t2: int) {
    && NoneBetween(s2.accepted, 0, Consumed(s1), t1, t2)
    && (forall k :: 0 <= Consumed(s1) <= k < Consumed(s2) && k < |s2.accepted| ==> s2.accepted[k].ts < t2)
  }

  lemma WindowFront(a: seq<Imu>, c: nat, t1: int, t2: int)
    requires c <= |a| && forall k :: 0 <= k < c ==> !(t1 < a[k].ts < t2)
    ensures Window(a[..c], t1, t2) == []
  {
    WindowEmpty(a[..c], t1, t2);
  }

  lemma WindowBack(a: seq<Imu>, c: nat, t1: int, t2: int)
    requires c <= |a| && forall k :: c <= k < |a| ==> a[k].ts >= t2
    ensures Window(a[c..], t1, t2) == []
  {
    WindowEmpty(a[c..], t1, t2);
  }

  lemma WindowMiddle(a: seq<Imu>, c1: nat, c2: nat, t1: int, t2: int)
    requires c1 <= c2 <= |a| && forall k :: c1 <= k < c2 ==> a[k].ts < t2
    ensures Window(a[c1..c2], t1, t2) == NewerThan(a[c1..c2], t1)
  {
    WindowIsNewer(a[c1..c2], t1, t2);
  }

  lemma WindowSplits(a: seq<Imu>, c1: nat, c2: nat, t1: int, t2: int)
    requires c1 <= c2 <= |a|
    requires forall k :: 0 <= k < c1 ==> !(t1 < a[k].ts < t2)
    requires forall k :: c1 <= k < c2 ==> a[k].ts < t2
    requires forall k :: c2 <= k < |a| ==> a[k].ts >= t2
    ensures NewerThan(a[c1..c2], t1) == Window(a, t1, t2)
  {
    hide Window, NewerThan;
    WindowFront(a, c1, t1, t2);
    WindowMiddle(a, c1, c2, t1, t2);
    WindowBack(a, c2, t1, t2);
    assert a == a[..c1] + a[c1..c2] + a[c2..];
    WindowConcat(a[..c1] + a[c1..c2], a[c2..], t1, t2);
    WindowConcat(a[..c1], a[c1..c2], t1, t2);
  }

  lemma WindowForces(a: seq<Imu>, c1: nat, c2: nat, t1: int, t2: int)
    requires Increasing(a) && c1 <= c2 <= |a| && t1 < t2
    requires NewerThan(a[c1..c2], t1) == Window(a, t1, t2)
    ensures forall k :: 0 <= k < c1 ==> !(t1 < a[k].ts < t2)
    ensures forall k :: c1 <= k < c2 ==> a[k].ts < t2
  {
    var y := a[c1..c2];
    hide Window, NewerThan;
    WindowMembers(a, t1, t2);
    NewerMembers(y, t1);
    forall k | 0 <= k < c1 ensures !(t1 < a[k].ts < t2) {
      NotInLater(a, k, c1, c2);
      assert a[k] in a;
    }
    hide Increasing;
    forall k | c1 <= k < c2 ensures a[k].ts < t2 {
      assert y[k - c1] == a[k] && a[k] in y;
    }
  }

  lemma NotInLater(a: seq<Imu>, k: nat, c1: nat, c2: nat)
    requires Increasing(a) && k < c1 <= c2 <= |a|
    ensures a[k] !in a[c1..c2]
  {
    forall j | c1 <= j < c2 ensures a[j] != a[k] {
      assert a[k].ts < a[j].ts;
    }
  }

  lemma ExactlyOnceMeans(cfg: Node, pre: seq<Event>, f1: Event, mid: seq<Event>, f2: Event)
    requires Consecutive(cfg, pre, f1, mid, f2) && f1.ts != 0
    ensures var s1, s2 := After(cfg, pre + [f1]), After(cfg, pre + [f1] + mid + [f2]);
            Between(cfg, pre, f1, mid, f2) == Window(s2.accepted, f1.ts, f2.ts)
            <==> NothingEarly(s1, s2, f1.ts, f2.ts)
  {
    TraceBetween(cfg, pre, f1, mid, f2);
    var s1, s2 := After(cfg, pre + [f1]), After(cfg, pre + [f1] + mid + [f2]);
    InvQueue(s2);
    hide Inv, QueueInv, Run;
    assert Increasing(s2.accepted) by {
      InvIncreasing(s2);
    }
    if NothingEarly(s1, s2, f1.ts, f2.ts) {
      WindowSplits(s2.accepted, Consumed(s1), Consumed(s2), f1.ts, f2.ts);
    }
    if Between(cfg, pre, f1, mid, f2) == Window(s2.accepted, f1.ts, f2.ts) {
      WindowForces(s2.accepted, Consumed(s1), Consumed(s2), f1.ts, f2.ts);
    }
  }

  // ---- the frames that spoil it ----

  /** Event j of the run takes a queued sample stamped strictly between lo and hi. */
  ghost predicate TakesBetween(cfg: Node, s: State, es: seq<Event>, j: nat, lo: int, hi: int)
    requires j < |es|
  {
    exists m :: m in Run(cfg, s, es[..j]).pending && lo < m.ts < hi && TakesAt(cfg, s, es, j, m)
  }

  /** Event j of the run takes a queued sample stamped t or later. */
  ghost predicate TakesFrom(cfg: Node, s: State, es: seq<Event>, j: nat, t: int)
    requires j < |es|
  {
    exists m :: m in Run(cfg, s, es[..j]).pending && m.ts >= t && TakesAt(cfg, s, es, j, m)
  }

  /** No frame before f1 takes a sample from between f1 and f2, and no failed frame between them takes one as new as f2. */
  ghost predicate NoEarlyFrame(cfg: Node, pre: seq<Event>, f1: Event, mid: seq<Event>, f2: Event)
    requires f1.Frame? && f2.Frame?
  {
    && (forall j :: 0 <= j < |pre| ==> !TakesBetween(cfg, INITIAL, pre, j, f1.ts, f2.ts))
    && (forall j :: 0 <= j < |mid| ==> !TakesFrom(cfg, After(cfg, pre + [f1]), mid, j, f2.ts))
  }

  /** A queued sample is one of the accepted ones, at a place still to be taken. */
  lemma QueuedAt(cfg: Node, s: State, es: seq<Event>, j: nat, m: Imu) returns (k: nat)
    requires Inv(s) && j <= |es| && m in Run(cfg, s, es[..j]).pending
    ensures Consumed(s) <= k < |Run(cfg, s, es).accepted| && Run(cfg, s, es).accepted[k] == m
  {
    var r := Run(cfg, s, es[..j]);
    InvFrom(cfg, s, es[..j]);
    assert es == es[..j] + es[j..];
    RunConcat(cfg, s, es[..j], es[j..]);
    AcceptedGrows(cfg, r, es[j..]);
    ConsumedGrows(cfg, s, es[..j]);
    var i :| 0 <= i < |r.pending| && r.pending[i] == m;
    k := Consumed(r) + i;
    assert r.accepted[k] == r.pending[i];
  }

  lemma {:induction false} ConsumedGrows(cfg: Node, s: State, es: seq<Event>)
    requires Inv(s)
    ensures Consumed(s) <= Consumed(Run(cfg, s, es))
  {
    if es != [] {
      var n := |es| - 1;
      var r := Run(cfg, s, es[..n]);
      ConsumedGrows(cfg, s, es[..n]);
      if Reaches(r, es[n]) {
        FlushShrinks(cfg, r, es[n].ts, es[n].registerThrows);
      }
    }
  }

  /** Some frame of the run takes a sample with a property exactly if a sample with it leaves the queue in the run. */
  lemma LeavesExactly(cfg: Node, s: State, es: seq<Event>, lo: int, hi: int)
    requires Inv(s)
    ensures var r := Run(cfg, s, es);
            NoneBetween(r.accepted, Consumed(s), Consumed(r), lo, hi)
            <==> forall j :: 0 <= j < |es| ==> !TakesBetween(cfg, s, es, j, lo, hi)
  {
    hide Inv, Run, Takes;
    var r := Run(cfg, s, es);
    if k :| 0 <= Consumed(s) <= k < Consumed(r) && k < |r.accepted| && lo < r.accepted[k].ts < hi {
      GoneExactly(cfg, s, es, k);
      var j :| 0 <= j < |es| && TakesAt(cfg, s, es, j, r.accepted[k]);
      TakesQueued(cfg, s, es, j, r.accepted[k]);
      assert TakesBetween(cfg, s, es, j, lo, hi);
    } else if j :| 0 <= j < |es| && TakesBetween(cfg, s, es, j, lo, hi) {
      var m :| m in Run(cfg, s, es[..j]).pending && lo < m.ts < hi && TakesAt(cfg, s, es, j, m);
      var k := QueuedAt(cfg, s, es, j, m);
      GoneExactly(cfg, s, es, k);
      ConsumedNat(s);
    }
  }

  lemma LeavesFromExactly(cfg: Node, s: State, es: seq<Event>, t: int)
    requires Inv(s)
    ensures var r := Run(cfg, s, es);
            (forall k :: 0 <= Consumed(s) <= k < Consumed(r) && k < |r.accepted| ==> r.accepted[k].ts < t)
            <==> forall j :: 0 <= j < |es| ==> !TakesFrom(cfg, s, es, j, t)
  {
    hide Inv, Run, Takes;
    var r := Run(cfg, s, es);
    if k :| 0 <= Consumed(s) <= k < Consumed(r) && k < |r.accepted| && r.accepted[k].ts >= t {
      GoneExactly(cfg, s, es, k);
      var j :| 0 <= j < |es| && TakesAt(cfg, s, es, j, r.accepted[k]);
      TakesQueued(cfg, s, es, j, r.accepted[k]);
      assert TakesFrom(cfg, s, es, j, t);
    } else if j :| 0 <= j < |es| && TakesFrom(cfg, s, es, j, t) {
      var m :| m in Run(cfg, s, es[..j]).pending && m.ts >= t && TakesAt(cfg, s, es, j, m);
      var k := QueuedAt(cfg, s, es, j, m);
      GoneExactly(cfg, s, es, k);
      ConsumedNat(s);
    }
  }

  lemma TakesQueued(cfg: Node, s: State, es: seq<Event>, j: nat, m: Imu)
    requires j < |es| && TakesAt(cfg, s, es, j, m)
    ensures m in Run(cfg, s, es[..j]).pending && m.ts < es[j].ts
  {
  }

  lemma ConsumedNat(s: State)
    requires Inv(s)
    ensures 0 <= Consumed(s) <= |s.accepted|
  {
  }

  /** A frame at the end takes nothing as new as itself. */
  lemma LastTakesOlder(cfg: Node, s: State, es: seq<Event>, f: Event, lo: int, hi: int)
    requires f.Frame?
    ensures f.ts <= lo ==>
              ((forall j :: 0 <= j < |es + [f]| ==> !TakesBetween(cfg, s, es + [f], j, lo, hi))
               <==> forall j :: 0 <= j < |es| ==> !TakesBetween(cfg, s, es, j, lo, hi))
    ensures (forall j :: 0 <= j < |es + [f]| ==> !TakesFrom(cfg, s, es + [f], j, f.ts))
            <==> forall j :: 0 <= j < |es| ==> !TakesFrom(cfg, s, es, j, f.ts)
  {
    var all := es + [f];
    assert all[..|es|] == es;
    forall j | 0 <= j < |es|
      ensures TakesBetween(cfg, s, all, j, lo, hi) <==> TakesBetween(cfg, s, es, j, lo, hi)
      ensures TakesFrom(cfg, s, all, j, f.ts) <==> TakesFrom(cfg, s, es, j, f.ts)
    {
      assert all[..j] == es[..j];
    }
    hide Run;
    assert !TakesFrom(cfg, s, all, |es|, f.ts);
    assert f.ts <= lo ==> !TakesBetween(cfg, s, all, |es|, lo, hi);
  }

  lemma NoneBetweenPrefix(a: seq<Imu>, b: seq<Imu>, c: int, lo: int, hi: int)
    requires b <= a && c <= |b|
    ensures NoneBetween(a, 0, c, lo, hi) <==> NoneBetween(b, 0, c, lo, hi)
  {
    assert forall k :: 0 <= k < |b| ==> b[k] == a[k];
  }

  lemma FrontExactly(cfg: Node, pre: seq<Event>, f1: Event, a: seq<Imu>, hi: int)
    requires f1.Frame? && After(cfg, pre + [f1]).accepted <= a
    ensures NoneBetween(a, 0, Consumed(After(cfg, pre + [f1])), f1.ts, hi)
            <==> forall j :: 0 <= j < |pre| ==> !TakesBetween(cfg, INITIAL, pre, j, f1.ts, hi)
  {
    hide Run, Inv, TakesBetween, TakesFrom, NoneBetween;
    var s1 := After(cfg, pre + [f1]);
    InvInitial();
    InvRun(cfg, pre + [f1]);
    ConsumedNat(s1);
    LeavesExactly(cfg, INITIAL, pre + [f1], f1.ts, hi);
    LastTakesOlder(cfg, INITIAL, pre, f1, f1.ts, hi);
    NoneBetweenPrefix(a, s1.accepted, Consumed(s1), f1.ts, hi);
  }

  lemma BackExactly(cfg: Node, s1: State, mid: seq<Event>, f2: Event)
    requires Inv(s1) && f2.Frame?
    ensures var s2 := Run(cfg, s1, mid + [f2]);
            (forall k :: 0 <= Consumed(s1) <= k < Consumed(s2) && k < |s2.accepted| ==> s2.accepted[k].ts < f2.ts)
            <==> forall j :: 0 <= j < |mid| ==> !TakesFrom(cfg, s1, mid, j, f2.ts)
  {
    hide Run, Inv, TakesBetween, TakesFrom;
    LeavesFromExactly(cfg, s1, mid + [f2], f2.ts);
    LastTakesOlder(cfg, s1, mid, f2, 0, 0);
  }

  lemma NothingEarlyExactly(cfg: Node, pre: seq<Event>, f1: Event, mid: seq<Event>, f2: Event)
    requires f1.Frame? && f2.Frame?
    ensures var s1, s2 := After(cfg, pre + [f1]), After(cfg, pre + [f1] + mid + [f2]);
            NothingEarly(s1, s2, f1.ts, f2.ts) <==> NoEarlyFrame(cfg, pre, f1, mid, f2)
  {
    var s1, s2 := After(cfg, pre + [f1]), After(cfg, pre + [f1] + mid + [f2]);
    assert s2 == Run(cfg, s1, mid + [f2]) by {
      assert pre + [f1] + mid + [f2] == pre + [f1] + (mid + [f2]);
      RunConcat(cfg, INITIAL, pre + [f1], mid + [f2]);
    }
    AcceptedGrows(cfg, s1, mid + [f2]);
    InvRun(cfg, pre + [f1]);
    hide Run, Inv, TakesBetween, TakesFrom;
    FrontExactly(cfg, pre, f1, s2.accepted, f2.ts);
    BackExactly(cfg, s1, mid, f2);
  }

  /** Between two consecutive tracked frames, with failed frames in between or not, the registered samples are exactly
      the accepted ones with stamps strictly between the two, if and only if no frame before the first one took a queued
      sample from between the two, and no failed frame between them took a queued one as new as the second. */
  lemma ExactlyOnceIff(cfg: Node, pre: seq<Event>, f1: Event, mid: seq<Event>, f2: Event)
    requires Consecutive(cfg, pre, f1, mid, f2) && f1.ts != 0
    ensures var s1, s2 := After(cfg, pre + [f1]), After(cfg, pre + [f1] + mid + [f2]);
            s2.trace == s1.trace + Calls(Window(s2.accepted, f1.ts, f2.ts)) + [Tracked(f2.ts)]
            <==> NoEarlyFrame(cfg, pre, f1, mid, f2)
  {
    TraceBetween(cfg, pre, f1, mid, f2);
    ExactlyOnceMeans(cfg, pre, f1, mid, f2);
    NothingEarlyExactly(cfg, pre, f1, mid, f2);
    hide Run, Window, Consecutive, NothingEarly, NoEarlyFrame;
    var s1, s2 := After(cfg, pre + [f1]), After(cfg, pre + [f1] + mid + [f2]);
    SameCalls(s1.trace, Between(cfg, pre, f1, mid, f2), Window(s2.accepted, f1.ts, f2.ts), f2.ts);
  }

  lemma SameCalls(t: seq<Call>, a: seq<Imu>, b: seq<Imu>, ts: int)
    ensures t + Calls(a) + [Tracked(ts)] == t + Calls(b) + [Tracked(ts)] <==> a == b
  {
    var u, v := t + Calls(a) + [Tracked(ts)], t + Calls(b) + [Tracked(ts)];
    if u == v {
      assert |u| == |v|;
      forall k | 0 <= k < |a| ensures a[k] == b[k] {
        assert u[|t| + k] == Registered(a[k]) && v[|t| + k] == Registered(b[k]);
      }
    }
  }

  /** After a frame stamped zero the queue is still discarded: nothing is registered up to the next tracked frame. */
  lemma NothingAfterZero(cfg: Node, pre: seq<Event>, f1: Event, mid: seq<Event>, f2: Event)
    requires Consecutive(cfg, pre, f1, mid, f2) && f1.ts == 0
    ensures After(cfg, pre + [f1] + mid + [f2]).trace == After(cfg, pre + [f1]).trace + [Tracked(f2.ts)]
  {
    var s1 := After(cfg, pre + [f1]);
    AfterSuccess(cfg, pre, f1);
    ZeroRegistersNothing(cfg, s1, mid);
    RunConcat(cfg, INITIAL, pre + [f1], mid);
    var all := pre + [f1] + mid + [f2];
    assert all[..|all| - 1] == pre + [f1] + mid;
    assert Run(cfg, s1, mid).trace + Calls([]) == Run(cfg, s1, mid).trace;
  }

  lemma {:induction false} ZeroRegistersNothing(cfg: Node, s: State, es: seq<Event>)
    requires s.lastTrack == 0 && Quiet(cfg, s, es)
    ensures Run(cfg, s, es).trace == s.trace && Run(cfg, s, es).lastTrack == 0
  {
    if es != [] {
      var n := |es| - 1;
      assert forall k :: 0 <= k < n ==> es[..n][..k] == es[..k];
      ZeroRegistersNothing(cfg, s, es[..n]);
      assert es[..n] == es[..|es| - 1];
      var r := Run(cfg, s, es[..n]);
      assert r.trace + Calls([]) == r.trace;
    }
  }

  lemma InvIncreasing(s: State)
    requires Inv(s)
    ensures Increasing(s.accepted)
  {
  }

  /** Every frame of the run is stamped h or earlier. */
  ghost predicate StampedUpTo(es: seq<Event>, h: int) {
    forall k :: 0 <= k < |es| && es[k].Frame? ==> es[k].ts <= h
  }

  /** What has left the queue is older than h. */
  ghost predicate GoneBefore(s: State, h: int) {
    forall k :: 0 <= k < Consumed(s) && k < |s.accepted| ==> s.accepted[k].ts < h
  }

  lemma {:induction false} ConsumedBelow(cfg: Node, es: seq<Event>, h: int)
    requires StampedUpTo(es, h)
    ensures GoneBefore(After(cfg, es), h)
  {
    hide Inv, Step, GoneBefore;
    if es == [] {
      NothingGone(h);
    } else {
      var n := |es| - 1;
      ConsumedBelow(cfg, es[..n], h);
      InvRun(cfg, es[..n]);
      ConsumedStep(cfg, After(cfg, es[..n]), es[n], h);
    }
  }

  lemma NothingGone(h: int)
    ensures GoneBefore(INITIAL, h)
  {
  }

  lemma ConsumedStep(cfg: Node, s: State, e: Event, h: int)
    requires Inv(s) && (e.Frame? ==> e.ts <= h) && GoneBefore(s, h)
    ensures GoneBefore(Step(cfg, s, e), h)
  {
    hide Inv, Flush, FlushOk, GoneBefore;
    InvQueue(s);
    if Reaches(s, e) {
      var f := Flush(cfg, s, e.ts, e.registerThrows);
      FlushFacts(cfg, s, e.ts, e.registerThrows);
      FrontOf(s, e.ts, f);
      GoneWithFront(s, f, e.ts, h);
      GoneReads(AfterFlush(s, f), Step(cfg, s, e), h);
    } else {
      GoneArrival(cfg, s, e, h);
    }
  }

  lemma FrontOf(s: State, ts: int, f: Flushed)
    requires FlushOk(s.pending, s.lastTrack, ts, f)
    ensures FrontTaken(s.pending, ts, f.rest)
  {
    hide SamplesOk;
  }

  lemma GoneWithFront(s: State, f: Flushed, ts: int, h: int)
    requires QueueInv(s) && FrontTaken(s.pending, ts, f.rest) && ts <= h && GoneBefore(s, h)
    ensures GoneBefore(AfterFlush(s, f), h)
  {
    hide Increasing, Calls;
    var c := Consumed(s);
    forall k | c <= k < c + |s.pending| - |f.rest| ensures s.accepted[k].ts < h {
      assert s.accepted[k] == s.pending[k - c];
    }
  }

  lemma GoneReads(s: State, t: State, h: int)
    requires GoneBefore(s, h) && t.accepted == s.accepted && t.pending == s.pending
    ensures GoneBefore(t, h)
  {
  }

  lemma GoneArrival(cfg: Node, s: State, e: Event, h: int)
    requires QueueInv(s) && GoneBefore(s, h) && !Reaches(s, e)
    ensures GoneBefore(Step(cfg, s, e), h)
  {
    hide Increasing, Flush, AfterFlush, AfterTrack;
  }

  /** If no frame before f1 is stamped later than f1 and no frame before f2 later than f2, every accepted sample stamped
      strictly between them is registered exactly once between them, in order, and no other: also when frames in between
      made Track throw. */
  lemma ExactlyOnce(cfg: Node, pre: seq<Event>, f1: Event, mid: seq<Event>, f2: Event)
    requires Consecutive(cfg, pre, f1, mid, f2) && f1.ts != 0
    requires StampedUpTo(pre, f1.ts) && StampedUpTo(pre + [f1] + mid, f2.ts)
    ensures var s1, s2 := After(cfg, pre + [f1]), After(cfg, pre + [f1] + mid + [f2]);
            && s2.trace == s1.trace + Calls(Window(Run(cfg, s1, mid).accepted, f1.ts, f2.ts)) + [Tracked(f2.ts)]
            && Increasing(Window(Run(cfg, s1, mid).accepted, f1.ts, f2.ts))
  {
    var s1, s2 := After(cfg, pre + [f1]), After(cfg, pre + [f1] + mid + [f2]);
    TraceBetween(cfg, pre, f1, mid, f2);
    ExactlyOnceMeans(cfg, pre, f1, mid, f2);
    assert NothingEarly(s1, s2, f1.ts, f2.ts) by {
      AcceptedGrows(cfg, s1, mid);
      ConsumedBelow(cfg, pre + [f1], f1.ts);
      ConsumedBelow(cfg, pre + [f1] + mid + [f2], f2.ts);
      hide Run, Inv, Consecutive;
    }
    WindowIncreasing(s2, f1.ts, f2.ts);
  }

  lemma {:induction false} AcceptedGrows(cfg: Node, s: State, es: seq<Event>)
    ensures s.accepted <= Run(cfg, s, es).accepted
  {
    if es != [] {
      AcceptedGrows(cfg, s, es[..|es| - 1]);
      TraceGrows(cfg, Run(cfg, s, es[..|es| - 1]), es[|es| - 1]);
    }
  }

  lemma WindowIncreasing(s: State, lo: int, hi: int)
    requires Inv(s)
    ensures Increasing(Window(s.accepted, lo, hi))
  {
    InvIncreasing(s);
    hide Inv;
    FilterIncreasing(s.accepted, lo, hi);
  }

  lemma {:induction false} FilterIncreasing(p: seq<Imu>, lo: int, hi: int)
    requires Increasing(p)
    ensures Increasing(Window(p, lo, hi))
  {
    if p != [] {
      IncreasingTail(p, 1);
      FilterIncreasing(p[1..], lo, hi);
      WindowMembers(p[1..], lo, hi);
      HeadOldest(p);
      var w := Window(p[1..], lo, hi);
      hide Increasing;
      if lo < p[0].ts < hi {
        IncreasingCons(p[0], w);
      } else {
        assert Window(p, lo, hi) == w;
      }
    }
  }
}
