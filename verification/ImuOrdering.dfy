/** The tracking half of the cuVSLAM nodes: a queue of IMU samples and three time stamps decide what the tracker sees.

    Time stamps are nanoseconds. Whether a call into the tracker throws is an input: each frame event says whether its
    Track call throws and for which samples registration would. The calls that went through form a trace. */
module ImuOrdering {
  import opened Quaternion

  /** The two nodes: the stereo node ends a flush when a registration throws, the RGB-D node goes on. */
  datatype Node = Node(useImu: bool, stopsOnThrow: bool)

  datatype Imu = Imu(ts: int, acceleration: Vec, angularVelocity: Vec)

  datatype Call = Registered(m: Imu) | Tracked(at: int)

  datatype State = State(
    ready: bool,               // the tracker exists
    pending: seq<Imu>,
    lastReceived: int,
    lastTrack: int,            // zero also stands for "no frame yet"
    trace: seq<Call>,          // the tracker calls that went through
    accepted: seq<Imu>)        // all samples ever put into the queue

  const INITIAL := State(false, [], 0, 0, [], [])

  datatype Event =
    | RigReady
    | ImuArrives(m: Imu)
    | Frame(ts: int, decodes: bool, trackThrows: bool, registerThrows: set<int>)

  function Stamp(c: Call): int {
    match c
    case Registered(m) => m.ts
    case Tracked(at) => at
  }

  // ---- the flush ----

  datatype Flushed = Flushed(registered: seq<Imu>, rest: seq<Imu>)

  /** Drops the samples older than the first frame. */
  function Discard(p: seq<Imu>, ts: int): seq<Imu> {
    if p == [] || p[0].ts >= ts then p else Discard(p[1..], ts)
  }

  /** The stereo node: a sample whose registration throws is gone and ends the flush. */
  function Register(p: seq<Imu>, last: int, ts: int, throws: set<int>): Flushed {
    if p == [] || p[0].ts >= ts then Flushed([], p)
    else if p[0].ts <= last then Register(p[1..], last, ts, throws)
    else if p[0].ts in throws then Flushed([], p[1..])
    else
      var r := Register(p[1..], last, ts, throws);
      Flushed([p[0]] + r.registered, r.rest)
  }

  /** The RGB-D node: a sample whose registration throws is gone and the flush goes on. */
  function RegisterAll(p: seq<Imu>, last: int, ts: int, throws: set<int>): Flushed {
    if p == [] || p[0].ts >= ts then Flushed([], p)
    else
      var r := RegisterAll(p[1..], last, ts, throws);
      if p[0].ts > last && p[0].ts !in throws then Flushed([p[0]] + r.registered, r.rest) else r
  }

  function Flush(cfg: Node, s: State, ts: int, throws: set<int>): Flushed {
    if !cfg.useImu || !s.ready then Flushed([], s.pending)
    else if s.lastTrack == 0 then Flushed([], Discard(s.pending, ts))
    else if cfg.stopsOnThrow then Register(s.pending, s.lastTrack, ts, throws)
    else RegisterAll(s.pending, s.lastTrack, ts, throws)
  }

  function Calls(ms: seq<Imu>): (cs: seq<Call>)
    ensures |cs| == |ms| && forall k :: 0 <= k < |ms| ==> cs[k] == Registered(ms[k])
  {
    seq(|ms|, k requires 0 <= k < |ms| => Registered(ms[k]))
  }

  // ---- steps ----

  predicate Accepts(cfg: Node, s: State, m: Imu) {
    cfg.useImu && m.ts > s.lastReceived && m.ts > s.lastTrack
  }

  /** The frame passes the checks in front of the tracker. */
  predicate Reaches(s: State, e: Event) {
    e.Frame? && s.ready && (s.lastTrack == 0 || e.ts > s.lastTrack) && e.decodes
  }

  predicate Succeeds(s: State, e: Event) {
    Reaches(s, e) && !e.trackThrows
  }

  function Step(cfg: Node, s: State, e: Event): State {
    match e
    case RigReady => s.(ready := true)
    case ImuArrives(m) =>
      if Accepts(cfg, s, m)
      then s.(pending := s.pending + [m], lastReceived := m.ts, accepted := s.accepted + [m])
      else s
    case Frame(ts, _, throws, regThrows) =>
      if !Reaches(s, e) then s
      else
        var f := Flush(cfg, s, ts, regThrows);
        if throws then AfterFlush(s, f) else AfterTrack(AfterFlush(s, f), ts)
  }

  /** The state a run leads to; runs grow at the end. */
  function Run(cfg: Node, s: State, es: seq<Event>): State {
    if es == [] then s else Step(cfg, Run(cfg, s, es[..|es| - 1]), es[|es| - 1])
  }

  function After(cfg: Node, es: seq<Event>): State {
    Run(cfg, INITIAL, es)
  }

  // ---- invariant ----

  ghost predicate Increasing(p: seq<Imu>) {
    forall i, j :: 0 <= i < j < |p| ==> p[i].ts < p[j].ts
  }

  ghost predicate InOrder(t: seq<Call>) {
    forall i, j :: 0 <= i < j < |t| ==> Stamp(t[i]) < Stamp(t[j])
  }

  function LastTracked(t: seq<Call>): int {
    if t == [] then 0
    else
      var c := t[|t| - 1];
      if c.Tracked? then c.at else LastTracked(t[..|t| - 1])
  }

  /** How many accepted samples have left the queue. */
  function Consumed(s: State): int {
    |s.accepted| - |s.pending|
  }

  ghost predicate Inv(s: State) {
    QueueInv(s) && TraceInv(s)
  }

  /** The queue is a back part of the accepted samples, which are in order. */
  ghost predicate QueueInv(s: State) {
    && |s.pending| <= |s.accepted|
    && s.pending == s.accepted[Consumed(s)..]
    && Increasing(s.accepted)
    && (forall k :: 0 <= k < |s.accepted| ==> s.accepted[k].ts <= s.lastReceived)
  }

  /** Whatever was registered is older than whatever is still queued or yet to come. */
  ghost predicate TraceInv(s: State) {
    && s.lastTrack == LastTracked(s.trace)
    && (forall c :: c in s.trace && c.Registered? ==> c.m.ts <= s.lastReceived)
    && (forall c, m :: c in s.trace && c.Registered? && m in s.pending ==> c.m.ts < m.ts)
  }

  lemma IncreasingTail(p: seq<Imu>, k: nat)
    requires Increasing(p) && k <= |p|
    ensures Increasing(p[k..])
  {
    forall i, j | 0 <= i < j < |p[k..]| ensures p[k..][i].ts < p[k..][j].ts {
      assert p[k..][i] == p[i + k] && p[k..][j] == p[j + k];
    }
  }

  lemma {:induction false} DiscardFacts(p: seq<Imu>, ts: int)
    ensures var r := Discard(p, ts);
            && |r| <= |p| && r == p[|p| - |r|..]
            && (forall k :: 0 <= k < |p| - |r| ==> p[k].ts < ts)
            && (r != [] ==> r[0].ts >= ts)
  {
    if p != [] && p[0].ts < ts {
      DiscardFacts(p[1..], ts);
      var r := Discard(p[1..], ts);
      forall k | 0 <= k < |p| - |r| ensures p[k].ts < ts {
        assert k > 0 ==> p[k] == p[1..][k - 1];
      }
    }
  }

  /** What a flush up to ts does to a queue p: it takes a front part older than ts, and what it registers of that part is
      newer than the last tracked frame and in order. */
  ghost predicate FlushOk(p: seq<Imu>, last: int, ts: int, f: Flushed) {
    FrontTaken(p, ts, f.rest) && SamplesOk(p, last, ts, f)
  }

  ghost predicate FrontTaken(p: seq<Imu>, ts: int, rest: seq<Imu>) {
    && |rest| <= |p| && rest == p[|p| - |rest|..]
    && (forall k :: 0 <= k < |p| - |rest| ==> p[k].ts < ts)
  }

  ghost predicate SamplesOk(p: seq<Imu>, last: int, ts: int, f: Flushed) {
    && Increasing(f.registered)
    && (forall m :: m in f.registered ==> m in p && last < m.ts < ts)
    && (forall m, r :: m in f.registered && r in f.rest ==> m.ts < r.ts)
  }

  lemma {:induction false} RegisterOk(p: seq<Imu>, last: int, ts: int, throws: set<int>)
    requires Increasing(p)
    ensures FlushOk(p, last, ts, Register(p, last, ts, throws))
  {
    if p != [] && p[0].ts < ts {
      IncreasingTail(p, 1);
      RegisterOk(p[1..], last, ts, throws);
      var r := Register(p[1..], last, ts, throws);
      var takes := p[0].ts > last;
      if takes && p[0].ts in throws {
        FlushHead(p, last, ts, Flushed([], p[1..]), false);
      } else {
        FlushHead(p, last, ts, r, takes);
      }
    }
  }

  lemma {:induction false} RegisterAllOk(p: seq<Imu>, last: int, ts: int, throws: set<int>)
    requires Increasing(p)
    ensures FlushOk(p, last, ts, RegisterAll(p, last, ts, throws))
  {
    if p != [] && p[0].ts < ts {
      IncreasingTail(p, 1);
      RegisterAllOk(p[1..], last, ts, throws);
      FlushHead(p, last, ts, RegisterAll(p[1..], last, ts, throws), p[0].ts > last && p[0].ts !in throws);
    }
  }

  lemma SliceSlice<T>(p: seq<T>, a: nat, b: nat)
    requires a + b <= |p|
    ensures p[a..][b..] == p[a + b..]
  {
  }

  lemma HeadOldest(p: seq<Imu>)
    requires p != [] && Increasing(p)
    ensures forall m :: m in p[1..] ==> m in p && p[0].ts < m.ts
  {
    forall m | m in p[1..] ensures m in p && p[0].ts < m.ts {
      var k :| 0 <= k < |p[1..]| && p[1..][k] == m;
      assert p[k + 1] == m;
    }
  }

  lemma IncreasingCons(m: Imu, p: seq<Imu>)
    requires Increasing(p) && forall x :: x in p ==> m.ts < x.ts
    ensures Increasing([m] + p)
  {
    var q := [m] + p;
    forall i, j | 0 <= i < j < |q| ensures q[i].ts < q[j].ts {
      assert q[j] == p[j - 1] && p[j - 1] in p;
      assert i > 0 ==> q[i] == p[i - 1];
    }
  }

  lemma FrontHead(p: seq<Imu>, ts: int, rest: seq<Imu>)
    requires p != [] && p[0].ts < ts && FrontTaken(p[1..], ts, rest)
    ensures FrontTaken(p, ts, rest)
  {
    SliceSlice(p, 1, |p| - 1 - |rest|);
    forall k | 0 <= k < |p| - |rest| ensures p[k].ts < ts {
      assert k > 0 ==> p[k] == p[1..][k - 1];
    }
  }

  lemma RestIn(p: seq<Imu>, ts: int, rest: seq<Imu>)
    requires FrontTaken(p, ts, rest)
    ensures forall m :: m in rest ==> m in p
  {
  }

  /** One more sample in front of a flush, registered or not. */
  lemma FlushHead(p: seq<Imu>, last: int, ts: int, r: Flushed, takes: bool)
    requires p != [] && Increasing(p) && p[0].ts < ts && FlushOk(p[1..], last, ts, r)
    requires takes ==> p[0].ts > last
    ensures FlushOk(p, last, ts, if takes then Flushed([p[0]] + r.registered, r.rest) else r)
  {
    hide FrontTaken, Increasing;
    FrontHead(p, ts, r.rest);
    HeadOldest(p);
    RestIn(p[1..], ts, r.rest);
    if takes {
      IncreasingCons(p[0], r.registered);
    }
  }

  lemma FlushFacts(cfg: Node, s: State, ts: int, throws: set<int>)
    requires Inv(s)
    ensures FlushOk(s.pending, s.lastTrack, ts, Flush(cfg, s, ts, throws))
    ensures Flush(cfg, s, ts, throws).registered != [] ==> s.lastTrack != 0
  {
    PendingIncreasing(s);
    hide Inv, Increasing, FlushOk;
    NothingRegistered(s.pending, s.lastTrack, ts);
    RegisterOk(s.pending, s.lastTrack, ts, throws);
    RegisterAllOk(s.pending, s.lastTrack, ts, throws);
  }

  lemma PendingIncreasing(s: State)
    requires QueueInv(s)
    ensures Increasing(s.pending)
  {
    IncreasingTail(s.accepted, Consumed(s));
  }

  /** A flush that registers nothing, before the tracker or its first frame is there. */
  lemma NothingRegistered(p: seq<Imu>, last: int, ts: int)
    ensures FlushOk(p, last, ts, Flushed([], p))
    ensures FlushOk(p, last, ts, Flushed([], Discard(p, ts)))
  {
    DiscardFacts(p, ts);
  }

  function AfterFlush(s: State, f: Flushed): State {
    s.(pending := f.rest, trace := s.trace + Calls(f.registered))
  }

  function AfterTrack(s: State, ts: int): State {
    s.(trace := s.trace + [Tracked(ts)], lastTrack := ts)
  }

  lemma {:induction false} LastTrackedCalls(t: seq<Call>, ms: seq<Imu>)
    ensures LastTracked(t + Calls(ms)) == LastTracked(t)
  {
    if ms == [] {
      assert t + Calls(ms) == t;
    } else {
      var n := |ms| - 1;
      LastTrackedCalls(t, ms[..n]);
      assert (t + Calls(ms))[..|t| + n] == t + Calls(ms[..n]);
    }
  }

  lemma InvFlush(s: State, f: Flushed, ts: int)
    requires Inv(s) && FlushOk(s.pending, s.lastTrack, ts, f)
    ensures Inv(AfterFlush(s, f))
  {
    hide Increasing, LastTracked, FrontTaken, QueueInv;
    QueueFlush(s, f, ts);
    LastTrackedCalls(s.trace, f.registered);
    PendingReceived(s);
    RestIn(s.pending, ts, f.rest);
    CallsIn(s.trace, f.registered);
  }

  lemma QueueFlush(s: State, f: Flushed, ts: int)
    requires QueueInv(s) && FrontTaken(s.pending, ts, f.rest)
    ensures QueueInv(AfterFlush(s, f))
  {
    SliceSlice(s.accepted, Consumed(s), |s.pending| - |f.rest|);
  }

  lemma CallsIn(t: seq<Call>, ms: seq<Imu>)
    ensures forall c :: c in t + Calls(ms) && c.Registered? ==> c in t || c.m in ms
  {
    var u := t + Calls(ms);
    forall c | c in u && c.Registered? ensures c in t || c.m in ms {
      var k :| 0 <= k < |u| && u[k] == c;
      assert k < |t| || c.m == ms[k - |t|];
    }
  }

  lemma PendingReceived(s: State)
    requires QueueInv(s)
    ensures forall m :: m in s.pending ==> m.ts <= s.lastReceived
  {
    forall m | m in s.pending ensures m.ts <= s.lastReceived {
      var k :| 0 <= k < |s.pending| && s.pending[k] == m;
      assert m == s.accepted[Consumed(s) + k];
    }
  }

  lemma InvTrack(s: State, ts: int)
    requires Inv(s)
    ensures Inv(AfterTrack(s, ts))
  {
    assert AfterTrack(s, ts).trace[..|s.trace|] == s.trace;
  }

  lemma InvStep(cfg: Node, s: State, e: Event)
    requires Inv(s)
    ensures Inv(Step(cfg, s, e))
  {
    hide FlushOk, Flush, AfterFlush, AfterTrack;
    if Reaches(s, e) {
      hide Inv;
      FlushFacts(cfg, s, e.ts, e.registerThrows);
      var f := Flush(cfg, s, e.ts, e.registerThrows);
      InvFlush(s, f, e.ts);
      InvTrack(AfterFlush(s, f), e.ts);
    }
  }

  lemma InvInitial()
    ensures Inv(INITIAL) && Consumed(INITIAL) == 0
  {
    assert LastTracked([]) == 0;
  }

  lemma {:induction false} InvRun(cfg: Node, es: seq<Event>)
    ensures Inv(After(cfg, es))
  {
    if es != [] {
      InvRun(cfg, es[..|es| - 1]);
      InvStep(cfg, After(cfg, es[..|es| - 1]), es[|es| - 1]);
    }
  }

  // ---- order ----

  /** A frame that Track takes although the tracker has already been given something as new or newer. */
  predicate LateFrame(s: State, e: Event) {
    Succeeds(s, e) && s.trace != [] && e.ts <= Stamp(s.trace[|s.trace| - 1])
  }

  ghost predicate NoLateFrame(cfg: Node, es: seq<Event>) {
    forall k :: 0 <= k < |es| ==> !LateFrame(After(cfg, es[..k]), es[k])
  }

  lemma {:induction false} LastTrackedBelow(t: seq<Call>)
    requires InOrder(t) && LastTracked(t) != 0
    ensures forall k :: 0 <= k < |t| && t[k].Tracked? ==> t[k].at <= LastTracked(t)
  {
    if t != [] && !t[|t| - 1].Tracked? {
      LastTrackedBelow(t[..|t| - 1]);
    }
  }

  lemma OrderFlush(s: State, f: Flushed, ts: int)
    requires Inv(s) && InOrder(s.trace) && FlushOk(s.pending, s.lastTrack, ts, f)
    requires f.registered != [] ==> s.lastTrack != 0
    ensures InOrder(AfterFlush(s, f).trace)
  {
    if f.registered != [] {
      LastTrackedBelow(s.trace);
    }
    var t := AfterFlush(s, f).trace;
    forall i, j | 0 <= i < j < |t| ensures Stamp(t[i]) < Stamp(t[j]) {
      if j < |s.trace| {
        assert t[i] == s.trace[i] && t[j] == s.trace[j];
      } else {
        var m := f.registered[j - |s.trace|];
        assert m in f.registered && t[j] == Registered(m);
        if i < |s.trace| {
          assert t[i] == s.trace[i];
        } else {
          assert t[i] == Registered(f.registered[i - |s.trace|]);
        }
      }
    }
  }

  lemma OrderTrack(t: seq<Call>, ts: int)
    requires InOrder(t)
    ensures InOrder(t + [Tracked(ts)]) <==> (t == [] || Stamp(t[|t| - 1]) < ts)
  {
    var u := t + [Tracked(ts)];
    if t != [] {
      assert u[|t| - 1] == t[|t| - 1] && u[|t|] == Tracked(ts);
      if Stamp(t[|t| - 1]) < ts {
        forall i, j | 0 <= i < j < |u| ensures Stamp(u[i]) < Stamp(u[j]) {
          assert u[i] == t[i] && (j < |t| ==> u[j] == t[j]);
          assert i < |t| - 1 ==> Stamp(t[i]) < Stamp(t[|t| - 1]);
        }
      }
    }
  }

  lemma LastAfterFlush(s: State, f: Flushed, ts: int)
    requires InOrder(AfterFlush(s, f).trace) && FlushOk(s.pending, s.lastTrack, ts, f)
    ensures var t, u := s.trace, AfterFlush(s, f).trace;
            (u == [] || Stamp(u[|u| - 1]) < ts) <==> (t == [] || Stamp(t[|t| - 1]) < ts)
  {
    var t, u, n := s.trace, AfterFlush(s, f).trace, |f.registered|;
    if n == 0 {
      assert u == t;
    } else {
      assert f.registered[n - 1] in f.registered;
      assert u[|u| - 1] == Registered(f.registered[n - 1]);
      assert t != [] ==> u[|t| - 1] == t[|t| - 1];
    }
  }

  /** One step keeps the order exactly if it is not a late frame: registrations never break it. */
  lemma OrderStep(cfg: Node, s: State, e: Event)
    requires Inv(s) && InOrder(s.trace)
    ensures InOrder(Step(cfg, s, e).trace) <==> !LateFrame(s, e)
  {
    hide Inv, FlushOk, Flush, InOrder, AfterFlush;
    if Reaches(s, e) {
      FlushFacts(cfg, s, e.ts, e.registerThrows);
      var f := Flush(cfg, s, e.ts, e.registerThrows);
      OrderFlush(s, f, e.ts);
      OrderTrack(AfterFlush(s, f).trace, e.ts);
      LastAfterFlush(s, f, e.ts);
    }
  }

  lemma TraceGrows(cfg: Node, s: State, e: Event)
    ensures s.trace <= Step(cfg, s, e).trace && s.accepted <= Step(cfg, s, e).accepted
  {
  }

  lemma PrefixInOrder(cfg: Node, s: State, e: Event)
    requires InOrder(Step(cfg, s, e).trace)
    ensures InOrder(s.trace)
  {
    var t := Step(cfg, s, e).trace;
    TraceGrows(cfg, s, e);
    forall i, j | 0 <= i < j < |s.trace| ensures Stamp(s.trace[i]) < Stamp(s.trace[j]) {
      assert t[i] == s.trace[i] && t[j] == s.trace[j];
    }
  }

  lemma NothingOrdered()
    ensures InOrder(INITIAL.trace)
  {
  }

  /** Over any run, whatever throws: registered samples and tracked frames are in strictly increasing order of time
      exactly if no late frame was taken. */
  lemma {:induction false} OrderExactly(cfg: Node, es: seq<Event>)
    ensures InOrder(After(cfg, es).trace) <==> NoLateFrame(cfg, es)
  {
    hide Step, InOrder, Inv, LateFrame;
    if es == [] {
      NothingOrdered();
    } else {
      var n := |es| - 1;
      var before := es[..n];
      OrderExactly(cfg, before);
      InvRun(cfg, before);
      assert forall k :: 0 <= k < n ==> before[..k] == es[..k];
      var s := After(cfg, before);
      if InOrder(s.trace) {
        OrderStep(cfg, s, es[n]);
        if !LateFrame(s, es[n]) {
          forall k | 0 <= k < |es| ensures !LateFrame(After(cfg, es[..k]), es[k]) {
            if k < n {
              assert before[k] == es[k];
            }
          }
        }
      } else if InOrder(After(cfg, es).trace) {
        PrefixInOrder(cfg, s, es[n]);
      } else {
        var k :| 0 <= k < n && LateFrame(After(cfg, before[..k]), before[k]);
        assert LateFrame(After(cfg, es[..k]), es[k]);
      }
    }
  }

  /** No Track call of the run throws. */
  ghost predicate NoTrackThrow(cfg: Node, es: seq<Event>) {
    forall k :: 0 <= k < |es| && Reaches(After(cfg, es[..k]), es[k]) ==> !es[k].trackThrows
  }

  ghost predicate LastIsFrame(s: State) {
    s.trace != [] ==> s.trace[|s.trace| - 1] == Tracked(s.lastTrack)
  }

  lemma LastIsFrameStep(cfg: Node, s: State, e: Event)
    requires LastIsFrame(s) && (Reaches(s, e) ==> !e.trackThrows)
    ensures LastIsFrame(Step(cfg, s, e))
  {
    hide Flush;
  }

  lemma {:induction false} EndsWithFrame(cfg: Node, es: seq<Event>)
    requires NoTrackThrow(cfg, es)
    ensures LastIsFrame(After(cfg, es))
  {
    if es != [] {
      hide Step, LastIsFrame, Reaches;
      var n := |es| - 1;
      assert forall k :: 0 <= k < n ==> es[..n][..k] == es[..k];
      EndsWithFrame(cfg, es[..n]);
      LastIsFrameStep(cfg, After(cfg, es[..n]), es[n]);
    } else {
      NoTraceYet();
    }
  }

  lemma NoTraceYet()
    ensures LastIsFrame(INITIAL)
  {
  }

  /** A frame is taken while zero is the stamp of the last tracked frame and not yet a sign of a fresh start. */
  predicate ZeroStampRelapse(s: State, e: Event) {
    Succeeds(s, e) && s.trace != [] && s.lastTrack == 0 && e.ts <= 0
  }

  /** In every run in which Track does not throw, for any interleaving of samples and frames, the merged trace is
      strictly increasing, except exactly where a frame stamped zero is followed by one stamped zero or less. */
  lemma OrderWithoutThrows(cfg: Node, es: seq<Event>)
    requires NoTrackThrow(cfg, es)
    ensures InOrder(After(cfg, es).trace) <==>
              forall k :: 0 <= k < |es| ==> !ZeroStampRelapse(After(cfg, es[..k]), es[k])
  {
    OrderExactly(cfg, es);
    forall k | 0 <= k < |es|
      ensures LateFrame(After(cfg, es[..k]), es[k]) <==> ZeroStampRelapse(After(cfg, es[..k]), es[k])
    {
      assert forall i :: 0 <= i < k ==> es[..k][..i] == es[..i];
      EndsWithFrame(cfg, es[..k]);
    }
  }

  /** In particular the order holds when no frame is stamped zero. */
  lemma OrderForNonZeroStamps(cfg: Node, es: seq<Event>)
    requires NoTrackThrow(cfg, es)
    requires forall k :: 0 <= k < |es| && es[k].Frame? ==> es[k].ts != 0
    ensures InOrder(After(cfg, es).trace)
  {
    OrderWithoutThrows(cfg, es);
    forall k | 0 <= k < |es| ensures !ZeroStampRelapse(After(cfg, es[..k]), es[k]) {
      assert forall i :: 0 <= i < k ==> es[..k][..i] == es[..i];
      NonZeroTrack(cfg, es[..k]);
    }
  }

  lemma {:induction false} NonZeroTrack(cfg: Node, es: seq<Event>)
    requires NoTrackThrow(cfg, es)
    requires forall k :: 0 <= k < |es| && es[k].Frame? ==> es[k].ts != 0
    ensures After(cfg, es).trace != [] ==> After(cfg, es).lastTrack != 0
  {
    if es != [] {
      var n := |es| - 1;
      assert forall i :: 0 <= i < n ==> es[..n][..i] == es[..i];
      NonZeroTrack(cfg, es[..n]);
    }
  }

  // ---- whatever throws ----

  /** Every frame that reaches the tracker is stamped earlier than h. */
  ghost predicate ReachedBefore(cfg: Node, es: seq<Event>, h: int) {
    forall k :: 0 <= k < |es| && Reaches(After(cfg, es[..k]), es[k]) ==> es[k].ts < h
  }

  lemma {:induction false} TraceBelow(cfg: Node, es: seq<Event>, h: int)
    requires ReachedBefore(cfg, es, h)
    ensures forall c :: c in After(cfg, es).trace ==> Stamp(c) < h
  {
    if es != [] {
      var n := |es| - 1;
      assert forall k :: 0 <= k < n ==> es[..n][..k] == es[..k];
      TraceBelow(cfg, es[..n], h);
      InvRun(cfg, es[..n]);
      assert Reaches(After(cfg, es[..n]), es[n]) ==> es[n].ts < h;
      hide Inv, Run;
      StepBelow(cfg, After(cfg, es[..n]), es[n], h);
    }
  }

  lemma StepBelow(cfg: Node, s: State, e: Event, h: int)
    requires Inv(s) && (Reaches(s, e) ==> e.ts < h) && forall c :: c in s.trace ==> Stamp(c) < h
    ensures forall c :: c in Step(cfg, s, e).trace ==> Stamp(c) < h
  {
    hide Inv, Flush, FlushOk, AfterFlush;
    if Reaches(s, e) {
      FlushFacts(cfg, s, e.ts, e.registerThrows);
      FlushBelow(s, Flush(cfg, s, e.ts, e.registerThrows), e.ts, h);
    }
  }

  lemma FlushBelow(s: State, f: Flushed, ts: int, h: int)
    requires ts < h && FlushOk(s.pending, s.lastTrack, ts, f) && forall c :: c in s.trace ==> Stamp(c) < h
    ensures forall c :: c in AfterFlush(s, f).trace ==> Stamp(c) < h
  {
    CallsIn(s.trace, f.registered);
    var u := AfterFlush(s, f).trace;
    forall c | c in u ensures Stamp(c) < h {
      if c !in s.trace {
        var k :| 0 <= k < |u| && u[k] == c;
        assert c == Registered(f.registered[k - |s.trace|]);
      }
    }
  }

  /** If the frames that reach the tracker have increasing stamps, the order holds whatever throws. */
  lemma OrderForRisingFrames(cfg: Node, es: seq<Event>)
    requires forall j, k :: 0 <= j < k < |es| && Reaches(After(cfg, es[..j]), es[j]) && Reaches(After(cfg, es[..k]), es[k])
               ==> es[j].ts < es[k].ts
    ensures InOrder(After(cfg, es).trace)
  {
    OrderExactly(cfg, es);
    forall k | 0 <= k < |es| ensures !LateFrame(After(cfg, es[..k]), es[k]) {
      if Reaches(After(cfg, es[..k]), es[k]) {
        assert forall j :: 0 <= j < k ==> es[..k][..j] == es[..j];
        TraceBelow(cfg, es[..k], es[k].ts);
      }
    }
  }
}
