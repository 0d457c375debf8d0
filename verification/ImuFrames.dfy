/** What reaches the tracker, told from the sequence of events alone: which frames are tracked, which samples are queued, and what
    each frame takes. Neither depends on what happens to be queued. */
module ImuFrames {
  import opened ImuOrdering
  import ImuQueue

  function Last(s: seq<int>): int {
    if s == [] then 0 else s[|s| - 1]
  }

  /** The frame comes after the rig, decodes, and is newer than the last tracked one; zero counts as none. */
  predicate Due(es: seq<Event>, tracked: seq<int>, e: Event) {
    && e.Frame? && e.decodes
    && RigReady in es
    && (Last(tracked) == 0 || Last(tracked) < e.ts)
  }

  /** The stamps of the frames that are due and do not make Track throw. */
  function DueFrames(es: seq<Event>): seq<int> {
    if es == [] then []
    else
      var before, e := es[..|es| - 1], es[|es| - 1];
      var tracked := DueFrames(before);
      if Due(before, tracked, e) && !e.trackThrows then tracked + [e.ts] else tracked
  }

  /** The samples newer than every sample before them and than the last tracked frame. */
  function NewSamples(useImu: bool, es: seq<Event>): seq<Imu> {
    if es == [] then []
    else
      var before, e := es[..|es| - 1], es[|es| - 1];
      var taken := NewSamples(useImu, before);
      var newest := if taken == [] then 0 else taken[|taken| - 1].ts;
      if useImu && e.ImuArrives? && e.m.ts > newest && e.m.ts > Last(DueFrames(before)) then taken + [e.m] else taken
  }

  /** The frames in a trace. */
  function TrackedIn(t: seq<Call>): seq<int> {
    if t == [] then []
    else
      var c := t[|t| - 1];
      TrackedIn(t[..|t| - 1]) + if c.Tracked? then [c.at] else []
  }

  // ---- frames and samples ----

  lemma {:induction false} TrackedInCalls(t: seq<Call>, ms: seq<Imu>)
    ensures TrackedIn(t + Calls(ms)) == TrackedIn(t)
  {
    if ms == [] {
      assert t + Calls(ms) == t;
    } else {
      var n := |ms| - 1;
      TrackedInCalls(t, ms[..n]);
      assert (t + Calls(ms))[..|t| + n] == t + Calls(ms[..n]);
    }
  }

  lemma TrackedInSnoc(t: seq<Call>, ts: int)
    ensures TrackedIn(t + [Tracked(ts)]) == TrackedIn(t) + [ts]
  {
    assert (t + [Tracked(ts)])[..|t|] == t;
  }

  /** The state agrees with what the events say. */
  ghost predicate Agrees(useImu: bool, es: seq<Event>, s: State) {
    && TrackedIn(s.trace) == DueFrames(es)
    && s.lastTrack == Last(DueFrames(es))
    && s.accepted == NewSamples(useImu, es)
    && s.lastReceived == (if s.accepted == [] then 0 else s.accepted[|s.accepted| - 1].ts)
    && (s.ready <==> RigReady in es)
  }

  lemma AgreesStep(cfg: Node, es: seq<Event>, s: State)
    requires es != [] && Agrees(cfg.useImu, es[..|es| - 1], s)
    ensures Agrees(cfg.useImu, es, Step(cfg, s, es[|es| - 1]))
  {
    hide Flush, Calls, TrackedIn;
    var e := es[|es| - 1];
    assert es == es[..|es| - 1] + [e];
    if e.Frame? {
      var f := Flush(cfg, s, e.ts, e.registerThrows);
      TrackedInCalls(s.trace, f.registered);
      TrackedInSnoc(s.trace + Calls(f.registered), e.ts);
    }
  }

  /** Over every run, whatever is queued and whatever registration throws: the frames tracked are exactly those after the rig that
      decode, do not throw, and are newer than the frame tracked before or follow one stamped zero; and the samples queued are
      exactly those newer than all before them and than the last tracked frame. */
  lemma {:induction false} FramesExactly(cfg: Node, es: seq<Event>)
    ensures Agrees(cfg.useImu, es, After(cfg, es))
  {
    hide Step, Agrees;
    if es == [] {
      NothingYet(cfg);
    } else {
      FramesExactly(cfg, es[..|es| - 1]);
      AgreesStep(cfg, es, After(cfg, es[..|es| - 1]));
    }
  }

  lemma NothingYet(cfg: Node)
    ensures Agrees(cfg.useImu, [], INITIAL)
  {
  }

  // ---- what a frame takes ----

  /** A due frame registers the queued sample: it lies between the last tracked frame, which is not stamped zero, and this one, its
      registration does not throw, and in the node that stops at a throw none before it does. */
  ghost predicate Feeds(cfg: Node, s: State, e: Event, m: Imu)
    requires e.Frame?
  {
    && cfg.useImu && m in s.pending
    && s.lastTrack != 0 && s.lastTrack < m.ts < e.ts
    && m.ts !in e.registerThrows
    && (cfg.stopsOnThrow ==> !ImuQueue.Thrower(s.pending, s.lastTrack, m.ts, e.registerThrows))
  }

  lemma {:induction false} RegisterMembers(p: seq<Imu>, last: int, ts: int, throws: set<int>, m: Imu)
    requires Increasing(p)
    ensures m in Register(p, last, ts, throws).registered
            <==> m in p && last < m.ts < ts && m.ts !in throws && !ImuQueue.Thrower(p, last, m.ts, throws)
  {
    if p != [] {
      HeadOldest(p);
      assert m in p <==> m == p[0] || m in p[1..];
      if p[0].ts < ts {
        IncreasingTail(p, 1);
        RegisterMembers(p[1..], last, ts, throws, m);
        ImuQueue.ThrowerHead(p, last, m.ts, throws);
        ImuQueue.NoThrowerBelowHead(p, last, throws);
      }
    }
  }

  lemma {:induction false} RegisterAllMembers(p: seq<Imu>, last: int, ts: int, throws: set<int>, m: Imu)
    requires Increasing(p)
    ensures m in RegisterAll(p, last, ts, throws).registered <==> m in p && last < m.ts < ts && m.ts !in throws
  {
    if p != [] {
      HeadOldest(p);
      assert m in p <==> m == p[0] || m in p[1..];
      if p[0].ts < ts {
        IncreasingTail(p, 1);
        RegisterAllMembers(p[1..], last, ts, throws, m);
      }
    }
  }

  lemma FlushFeeds(cfg: Node, s: State, e: Event, m: Imu)
    requires e.Frame? && s.ready && Increasing(s.pending)
    ensures m in Flush(cfg, s, e.ts, e.registerThrows).registered <==> Feeds(cfg, s, e, m)
  {
    hide Increasing, ImuQueue.Thrower;
    RegisterMembers(s.pending, s.lastTrack, e.ts, e.registerThrows, m);
    RegisterAllMembers(s.pending, s.lastTrack, e.ts, e.registerThrows, m);
  }

  lemma BackPart(p: seq<Imu>, n: nat, i: nat)
    requires Increasing(p) && n <= |p| && i < |p|
    ensures p[i] in p[n..] <==> i >= n
  {
    if i >= n {
      assert p[n..][i - n] == p[i];
    }
  }

  /** A queued sample stays queued exactly if the flush does not take it. */
  lemma FlushLeaves(cfg: Node, s: State, e: Event, m: Imu)
    requires e.Frame? && s.ready && Increasing(s.pending) && m in s.pending
    ensures m !in Flush(cfg, s, e.ts, e.registerThrows).rest <==> cfg.useImu && m.ts < e.ts && !ImuQueue.Blocked(cfg, s, e, m)
  {
    hide Flush, ImuQueue.Blocked, Increasing;
    var p, rest := s.pending, Flush(cfg, s, e.ts, e.registerThrows).rest;
    var i :| 0 <= i < |p| && p[i] == m;
    ImuQueue.FlushTakesExactly(cfg, s, e, i);
    FlushRest(cfg, s, e.ts, e.registerThrows);
    BackPart(p, |p| - |rest|, i);
  }

  lemma FlushRest(cfg: Node, s: State, ts: int, throws: set<int>)
    requires Increasing(s.pending)
    ensures FrontTaken(s.pending, ts, Flush(cfg, s, ts, throws).rest)
  {
    hide Increasing;
    NothingRegistered(s.pending, s.lastTrack, ts);
    RegisterOk(s.pending, s.lastTrack, ts, throws);
    RegisterAllOk(s.pending, s.lastTrack, ts, throws);
  }

  /** The samples a frame registers, in order. */
  function Fed(cfg: Node, s: State, e: Event): seq<Imu>
    requires e.Frame?
  {
    Flush(cfg, s, e.ts, e.registerThrows).registered
  }

  /** Over every run, a frame that is due, whether or not it then makes Track throw, takes from the queue exactly the samples older
      than itself that no throw keeps back, and registers exactly those of them that lie after the last tracked frame and do not
      throw, in order; it is tracked after them unless Track throws. A frame that is not due changes nothing. */
  lemma FrameTakes(cfg: Node, es: seq<Event>, e: Event)
    requires e.Frame?
    ensures var s, s' := After(cfg, es), After(cfg, es + [e]);
            if !Due(es, DueFrames(es), e) then s' == s
            else
              && (forall m :: m in Fed(cfg, s, e) <==> Feeds(cfg, s, e, m))
              && Increasing(Fed(cfg, s, e))
              && s'.trace == s.trace + Calls(Fed(cfg, s, e)) + (if e.trackThrows then [] else [Tracked(e.ts)])
              && (forall m :: m in s.pending ==>
                    (m !in s'.pending <==> cfg.useImu && m.ts < e.ts && !ImuQueue.Blocked(cfg, s, e, m)))
              && (forall m :: m in s'.pending ==> m in s.pending)
  {
    hide Step, DueFrames, Flush, ImuQueue.Blocked, Feeds, TrackedIn, NewSamples, Calls, Increasing, QueueInv, TraceInv;
    assert (es + [e])[..|es|] == es;
    FramesExactly(cfg, es);
    InvRun(cfg, es);
    var s := After(cfg, es);
    DueReaches(cfg, es, s, e);
    if Reaches(s, e) {
      FrameStep(cfg, s, e);
    }
  }

  lemma DueReaches(cfg: Node, es: seq<Event>, s: State, e: Event)
    requires Agrees(cfg.useImu, es, s) && e.Frame?
    ensures Due(es, DueFrames(es), e) <==> Reaches(s, e)
    ensures !Reaches(s, e) ==> Step(cfg, s, e) == s
  {
    hide DueFrames, NewSamples, TrackedIn;
  }

  /** The same for one step. */
  lemma FrameStep(cfg: Node, s: State, e: Event)
    requires Inv(s) && Reaches(s, e)
    ensures var s' := Step(cfg, s, e);
            && (forall m :: m in Fed(cfg, s, e) <==> Feeds(cfg, s, e, m))
            && Increasing(Fed(cfg, s, e))
            && s'.trace == s.trace + Calls(Fed(cfg, s, e)) + (if e.trackThrows then [] else [Tracked(e.ts)])
            && (forall m :: m in s.pending ==>
                  (m !in s'.pending <==> cfg.useImu && m.ts < e.ts && !ImuQueue.Blocked(cfg, s, e, m)))
            && (forall m :: m in s'.pending ==> m in s.pending)
  {
    PendingIncreasing(s);
    hide Flush, ImuQueue.Blocked, Feeds, Calls, Inv, Increasing;
    FlushRest(cfg, s, e.ts, e.registerThrows);
    RestIn(s.pending, e.ts, Flush(cfg, s, e.ts, e.registerThrows).rest);
    FlushFacts(cfg, s, e.ts, e.registerThrows);
    hide FrontTaken;
    forall m {
      FlushFeeds(cfg, s, e, m);
    }
    forall m | m in s.pending {
      FlushLeaves(cfg, s, e, m);
    }
  }
}
