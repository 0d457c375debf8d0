/** The two cuVSLAM nodes as objects: their callbacks do what the steps of ImuOrdering say, and runs on which the promised
    order or the exactly-once delivery fails. */
module CuvslamNodes {
  import opened Quaternion
  import opened ImuOrdering

  lemma RegisterStep(p: seq<Imu>, last: int, ts: int, throws: set<int>, done: seq<Imu>)
    requires p != [] && p[0].ts < ts
    ensures last < p[0].ts && p[0].ts !in throws ==>
              done + Register(p, last, ts, throws).registered
              == (done + [p[0]]) + Register(p[1..], last, ts, throws).registered
    ensures last < p[0].ts && p[0].ts !in throws ==>
              done + RegisterAll(p, last, ts, throws).registered
              == (done + [p[0]]) + RegisterAll(p[1..], last, ts, throws).registered
  {
  }

  class CuvslamOdomNode {
    const useImu: bool
    var hasTracker: bool
    var pendingImu: seq<Imu>
    var lastImuReceivedTs: int
    var lastTrackTs: int
    ghost var trace: seq<Call>
    ghost var accepted: seq<Imu>

    ghost function Value(): State
      reads this
    {
      State(hasTracker, pendingImu, lastImuReceivedTs, lastTrackTs, trace, accepted)
    }

    ghost function Config(): Node {
      Node(useImu, true)
    }

    constructor (useImu: bool)
      ensures Value() == INITIAL && Config() == Node(useImu, true)
    {
      this.useImu := useImu;
      hasTracker := false;
      pendingImu := [];
      lastImuReceivedTs := 0;
      lastTrackTs := 0;
      trace := [];
      accepted := [];
    }

    method RigInitialized()
      modifies this
      ensures Value() == Step(Config(), old(Value()), RigReady)
    {
      hasTracker := true;
    }

    method ImuCallback(m: Imu)
      modifies this
      ensures Value() == Step(Config(), old(Value()), ImuArrives(m))
    {
      if !useImu {
        return;
      }
      if m.ts <= lastImuReceivedTs || m.ts <= lastTrackTs {
        return;
      }
      lastImuReceivedTs := m.ts;
      pendingImu := pendingImu + [m];
      accepted := accepted + [m];
    }

    method FlushImuMeasurements(ts: int, registerThrows: set<int>)
      requires useImu
      modifies this`pendingImu, this`trace
      ensures Value() == AfterFlush(old(Value()), Flush(Config(), old(Value()), ts, registerThrows))
    {
      ghost var start := pendingImu;
      ghost var done: seq<Imu> := [];
      assert trace == old(trace) + Calls([]);
      if !hasTracker || pendingImu == [] {
        return;
      }
      if lastTrackTs == 0 {
        while pendingImu != [] && pendingImu[0].ts < ts
          invariant Discard(start, ts) == Discard(pendingImu, ts)
          invariant trace == old(trace)
          decreases |pendingImu|
        {
          pendingImu := pendingImu[1..];
        }
        return;
      }
      ghost var all := Register(start, lastTrackTs, ts, registerThrows);
      while pendingImu != [] && pendingImu[0].ts < ts
        invariant all.rest == Register(pendingImu, lastTrackTs, ts, registerThrows).rest
        invariant all.registered == done + Register(pendingImu, lastTrackTs, ts, registerThrows).registered
        invariant trace == old(trace) + Calls(done)
        decreases |pendingImu|
      {
        var meas := pendingImu[0];
        RegisterStep(pendingImu, lastTrackTs, ts, registerThrows, done);
        pendingImu := pendingImu[1..];
        if meas.ts <= lastTrackTs {
          continue;
        }
        if meas.ts in registerThrows {
          return;
        }
        done := done + [meas];
        trace := trace + [Registered(meas)];
      }
    }

    method StereoCallback(ts: int, decodes: bool, trackThrows: bool, registerThrows: set<int>)
      modifies this
      ensures Value() == Step(Config(), old(Value()), Frame(ts, decodes, trackThrows, registerThrows))
    {
      if !hasTracker {
        return;
      }
      if lastTrackTs != 0 && ts <= lastTrackTs {
        return;
      }
      if !decodes {
        return;
      }
      if useImu {
        FlushImuMeasurements(ts, registerThrows);
      } else {
        assert trace == trace + Calls([]);
      }
      if trackThrows {
        return;
      }
      trace := trace + [Tracked(ts)];
      lastTrackTs := ts;
    }
  }

  class CuvslamRgbdNode {
    const useImu: bool
    var hasTracker: bool
    var pendingImu: seq<Imu>
    var lastImuReceivedTs: int
    var lastTrackTs: int
    ghost var trace: seq<Call>
    ghost var accepted: seq<Imu>

    ghost function Value(): State
      reads this
    {
      State(hasTracker, pendingImu, lastImuReceivedTs, lastTrackTs, trace, accepted)
    }

    ghost function Config(): Node {
      Node(useImu, false)
    }

    constructor (useImu: bool)
      ensures Value() == INITIAL && Config() == Node(useImu, false)
    {
      this.useImu := useImu;
      hasTracker := false;
      pendingImu := [];
      lastImuReceivedTs := 0;
      lastTrackTs := 0;
      trace := [];
      accepted := [];
    }

    method RigInitialized()
      modifies this
      ensures Value() == Step(Config(), old(Value()), RigReady)
    {
      hasTracker := true;
    }

    method ImuCallback(m: Imu)
      modifies this
      ensures Value() == Step(Config(), old(Value()), ImuArrives(m))
    {
      if !useImu {
        return;
      }
      if m.ts <= lastImuReceivedTs || m.ts <= lastTrackTs {
        return;
      }
      lastImuReceivedTs := m.ts;
      pendingImu := pendingImu + [m];
      accepted := accepted + [m];
    }

    method FlushImuMeasurements(ts: int, registerThrows: set<int>)
      requires useImu
      modifies this`pendingImu, this`trace
      ensures Value() == AfterFlush(old(Value()), Flush(Config(), old(Value()), ts, registerThrows))
    {
      ghost var start := pendingImu;
      ghost var done: seq<Imu> := [];
      assert trace == old(trace) + Calls([]);
      if !hasTracker || pendingImu == [] {
        return;
      }
      if lastTrackTs == 0 {
        while pendingImu != [] && pendingImu[0].ts < ts
          invariant Discard(start, ts) == Discard(pendingImu, ts)
          invariant trace == old(trace)
          decreases |pendingImu|
        {
          pendingImu := pendingImu[1..];
        }
        return;
      }
      ghost var all := RegisterAll(start, lastTrackTs, ts, registerThrows);
      while pendingImu != [] && pendingImu[0].ts < ts
        invariant all.rest == RegisterAll(pendingImu, lastTrackTs, ts, registerThrows).rest
        invariant all.registered == done + RegisterAll(pendingImu, lastTrackTs, ts, registerThrows).registered
        invariant trace == old(trace) + Calls(done)
        decreases |pendingImu|
      {
        var m := pendingImu[0];
        RegisterStep(pendingImu, lastTrackTs, ts, registerThrows, done);
        if m.ts > lastTrackTs {
          if m.ts !in registerThrows {
            done := done + [m];
            trace := trace + [Registered(m)];
          }
        }
        pendingImu := pendingImu[1..];
      }
    }

    method RgbdCallback(ts: int, decodes: bool, trackThrows: bool, registerThrows: set<int>)
      modifies this
      ensures Value() == Step(Config(), old(Value()), Frame(ts, decodes, trackThrows, registerThrows))
    {
      if !hasTracker {
        return;
      }
      if lastTrackTs != 0 && ts <= lastTrackTs {
        return;
      }
      if !decodes {
        return;
      }
      if useImu {
        FlushImuMeasurements(ts, registerThrows);
      } else {
        assert trace == trace + Calls([]);
      }
      if trackThrows {
        return;
      }
      trace := trace + [Tracked(ts)];
      lastTrackTs := ts;
    }
  }

  // ---- runs on which the promises fail ----

  function Sample(ts: int): Imu {
    Imu(ts, ZERO, ZERO)
  }

  function Good(ts: int): Event {
    Frame(ts, true, false, {})
  }

  function Failing(ts: int): Event {
    Frame(ts, true, true, {})
  }

  lemma RunAppend(cfg: Node, es: seq<Event>, e: Event)
    ensures After(cfg, es + [e]) == Step(cfg, After(cfg, es), e)
  {
    assert (es + [e])[..|es|] == es;
  }

  /** A good frame on an empty queue is just tracked. */
  lemma GoodFrame(cfg: Node, s: State, ts: int)
    requires s.ready && s.pending == [] && (s.lastTrack == 0 || ts > s.lastTrack)
    ensures Step(cfg, s, Good(ts)) == s.(trace := s.trace + [Tracked(ts)], lastTrack := ts)
  {
    assert s.trace + Calls([]) == s.trace;
  }

  /** Two frames stamped zero are both tracked. */
  lemma ZeroStampedTwice(cfg: Node)
    ensures After(cfg, [RigReady, Good(0), Good(0)]).trace == [Tracked(0), Tracked(0)]
  {
    hide Step, Run;
    var s := State(true, [], 0, 0, [], []);
    Started(cfg);
    RunAppend(cfg, [RigReady], Good(0));
    RunAppend(cfg, [RigReady, Good(0)], Good(0));
    GoodFrame(cfg, s, 0);
    GoodFrame(cfg, s.(trace := [Tracked(0)]), 0);
    assert [] + [Tracked(0)] == [Tracked(0)] && [Tracked(0)] + [Tracked(0)] == [Tracked(0), Tracked(0)];
    assert [RigReady] + [Good(0)] == [RigReady, Good(0)];
    assert [RigReady, Good(0)] + [Good(0)] == [RigReady, Good(0), Good(0)];
  }

  lemma Started(cfg: Node)
    ensures After(cfg, [RigReady]) == State(true, [], 0, 0, [], [])
  {
    assert [RigReady][..0] == [];
  }

  /** Track throws at stamp 30 and succeeds at stamp 20 afterwards: the sample stamped 25 has been registered before the
      frame stamped 20 is tracked, so the trace is out of order and the interval from 10 to 20 got a sample that is not
      in it. */
  lemma OlderFrameAfterThrow(stops: bool)
    ensures var cfg := Node(true, stops);
            var es := [RigReady] + [Good(10)] + [ImuArrives(Sample(15))] + [ImuArrives(Sample(25))] + [Failing(30)]
                      + [Good(20)];
            After(cfg, es).trace == [Tracked(10), Registered(Sample(15)), Registered(Sample(25)), Tracked(20)]
  {
    hide Step, Run;
    var cfg := Node(true, stops);
    var a, b := Sample(15), Sample(25);
    var e1 := [RigReady] + [Good(10)];
    var e3 := e1 + [ImuArrives(a)] + [ImuArrives(b)];
    assert [] + [Tracked(10)] == [Tracked(10)] && [] + [a, b] == [a, b];
    assert [Tracked(10)] + [Registered(a), Registered(b)] == [Tracked(10), Registered(a), Registered(b)];
    Started(cfg);
    RunAppend(cfg, [RigReady], Good(10));
    GoodFrame(cfg, State(true, [], 0, 0, [], []), 10);
    RunAppend(cfg, e1, ImuArrives(a));
    RunAppend(cfg, e1 + [ImuArrives(a)], ImuArrives(b));
    TwoSamples(cfg, State(true, [], 0, 10, [Tracked(10)], []), a, b);
    RunAppend(cfg, e3, Failing(30));
    FailedFrame(cfg, State(true, [a, b], 25, 10, [Tracked(10)], [a, b]), a, b);
    RunAppend(cfg, e3 + [Failing(30)], Good(20));
    GoodFrame(cfg, State(true, [], 25, 10, [Tracked(10), Registered(a), Registered(b)], [a, b]), 20);
  }

  lemma TwoSamples(cfg: Node, s: State, a: Imu, b: Imu)
    requires cfg.useImu && s.lastReceived < a.ts < b.ts && s.lastTrack < a.ts
    ensures Step(cfg, Step(cfg, s, ImuArrives(a)), ImuArrives(b))
         == s.(pending := s.pending + [a, b], lastReceived := b.ts, accepted := s.accepted + [a, b])
  {
  }

  lemma FailedFrame(cfg: Node, s: State, a: Imu, b: Imu)
    requires cfg.useImu && s.ready && s.pending == [a, b] && s.lastTrack != 0
    requires s.lastTrack < a.ts < 30 && s.lastTrack < b.ts < 30
    ensures Step(cfg, s, Failing(30)) == s.(pending := [], trace := s.trace + [Registered(a), Registered(b)])
  {
    assert [a, b][1..] == [b] && [b][1..] == [];
    assert Register([], s.lastTrack, 30, {}) == Flushed([], []) == RegisterAll([], s.lastTrack, 30, {});
    assert Register([b], s.lastTrack, 30, {}) == Flushed([b], []) == RegisterAll([b], s.lastTrack, 30, {});
    assert Flush(cfg, s, 30, {}) == Flushed([a, b], []);
    assert Calls([a, b]) == [Registered(a), Registered(b)];
  }
}
