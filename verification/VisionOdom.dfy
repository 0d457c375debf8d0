/** The node that feeds odometry to PX4: a gated stash, a publish timer and a staleness watchdog. */
module VisionOdom {
  import opened Options
  import opened Quaternion
  import opened RigidBody
  import opened FrameConversion
  import RateGate

  const MIN_INTERVAL_NS := 33_333_333
  const ODOM_TIMEOUT_NS := 5_000_000_000

  datatype Message = Message(childFrame: string, odometry: Odometry)

  datatype State = State(
    lastAccept: int, lastMessage: Option<Message>, isPublishing: bool, lastOdomTime: int)

  const INITIAL := State(0, None, false, 0)

  /** The gate reads the clock first, the time of the last odometry is read at the end of the callback. */
  function OnOdom(s: State, m: Message, now: int, end: int): State {
    if RateGate.Open(MIN_INTERVAL_NS, s.lastAccept, now)
    then State(now, Some(m), true, end)
    else s
  }

  /** The message's own pose if it is already in the base frame, otherwise the transform, otherwise the message's. */
  function SourcePose(baseFrame: string, m: Message, tf: Option<Pose>): Pose {
    if m.childFrame == baseFrame || tf.None? then m.odometry.pose else tf.value
  }

  function OnPublish(sqrtHalf: real, baseFrame: string, s: State, tf: Option<Pose>): Option<VehicleOdometry> {
    if !s.isPublishing || s.lastMessage.None? then None
    else
      var m := s.lastMessage.value;
      Some(ToPx4(sqrtHalf, Odometry(SourcePose(baseFrame, m, tf), m.odometry.twist)))
  }

  function OnWatchdog(s: State, now: int): State {
    if s.isPublishing && now - s.lastOdomTime > ODOM_TIMEOUT_NS then s.(isPublishing := false) else s
  }

  // ---- runs ----

  datatype Event =
    | Odom(m: Message, now: int, end: int)
    | Publish(now: int, tf: Option<Pose>)
    | Watchdog(now: int)

  function Step(s: State, e: Event): State {
    match e
    case Odom(m, now, end) => OnOdom(s, m, now, end)
    case Publish(_, _) => s
    case Watchdog(now) => OnWatchdog(s, now)
  }

  /** The state after a run; runs grow at the end. */
  function After(es: seq<Event>): State {
    if es == [] then INITIAL else Step(After(es[..|es| - 1]), es[|es| - 1])
  }

  function EndTime(e: Event): int {
    match e
    case Odom(_, _, end) => end
    case Publish(now, _) => now
    case Watchdog(now) => now
  }

  /** The clock after a run started at `start`. */
  function Clock(start: int, es: seq<Event>): int {
    if es == [] then start else EndTime(es[|es| - 1])
  }

  /** When the watchdog last ran, the start counting as a tick. */
  function LastTick(start: int, es: seq<Event>): int {
    if es == [] then start
    else
      var e := es[|es| - 1];
      if e.Watchdog? then e.now else LastTick(start, es[..|es| - 1])
  }

  /** When messages arrived. */
  function Arrivals(es: seq<Event>): seq<int> {
    if es == [] then []
    else
      var e, before := es[|es| - 1], Arrivals(es[..|es| - 1]);
      if e.Odom? then before + [e.now] else before
  }

  /** When messages were let in. */
  function Taken(es: seq<Event>): seq<int> {
    if es == [] then []
    else
      var e, before := es[|es| - 1], es[..|es| - 1];
      if e.Odom? && After(before).lastAccept != After(es).lastAccept then Taken(before) + [e.now] else Taken(before)
  }

  /** Over a whole run, publishing and watchdog included, the node lets in exactly what the greedy gate does. */
  lemma {:induction false} NodeIsGreedy(es: seq<Event>)
    ensures Taken(es) == RateGate.Accepted(MIN_INTERVAL_NS, 0, Arrivals(es))
    ensures After(es).lastAccept == RateGate.LastTaken(MIN_INTERVAL_NS, 0, Arrivals(es))
  {
    if es != [] {
      var e, before := es[|es| - 1], es[..|es| - 1];
      NodeIsGreedy(before);
      if e.Odom? {
        RateGate.AcceptedAppend(MIN_INTERVAL_NS, 0, Arrivals(before), e.now);
      }
    }
  }

  // ---- what is published ----

  /** The last message the greedy gate lets in. */
  function LastIn(es: seq<Event>): (k: Option<nat>)
    ensures k.Some? ==> k.value < |es| && es[k.value].Odom?
  {
    if es == [] then None
    else
      var n := |es| - 1;
      var taken := RateGate.LastTaken(MIN_INTERVAL_NS, 0, Arrivals(es[..n]));
      if es[n].Odom? && RateGate.Open(MIN_INTERVAL_NS, taken, es[n].now) then Some(n) else LastIn(es[..n])
  }

  /** When the node finished with it. */
  function LastAccepted(es: seq<Event>): Option<int> {
    if LastIn(es).Some? then Some(es[LastIn(es).value].end) else None
  }

  /** After message k, the watchdog has found more than five seconds of silence. */
  predicate Silenced(es: seq<Event>, k: nat)
    requires k < |es| && es[k].Odom?
  {
    exists j :: k < j < |es| && es[j].Watchdog? && es[j].now - es[k].end > 5_000_000_000
  }

  /** The node's state is that of the last message let in. */
  ghost predicate Stashed(es: seq<Event>, s: State) {
    match LastIn(es)
    case None => s.lastMessage == None && !s.isPublishing
    case Some(k) =>
      && s.lastMessage == Some(es[k].m) && s.lastOdomTime == es[k].end
      && (s.isPublishing <==> !Silenced(es, k))
  }

  lemma SilencedSnoc(es: seq<Event>, e: Event, k: nat)
    requires k < |es| && es[k].Odom?
    ensures Silenced(es + [e], k) <==> Silenced(es, k) || (e.Watchdog? && e.now - es[k].end > 5_000_000_000)
  {
    var all := es + [e];
    assert forall j :: 0 <= j < |es| ==> all[j] == es[j];
    assert all[|es|] == e;
  }

  lemma {:induction false} StashIs(es: seq<Event>)
    ensures Stashed(es, After(es))
  {
    hide RateGate.LastTaken, Silenced;
    if es != [] {
      var n := |es| - 1;
      StashIs(es[..n]);
      NodeIsGreedy(es[..n]);
      assert es == es[..n] + [es[n]];
      var before := LastIn(es[..n]);
      if before.Some? {
        SilencedSnoc(es[..n], es[n], before.value);
      }
      if es[n].Odom? {
        NotYetSilenced(es);
      }
    }
  }

  lemma NotYetSilenced(es: seq<Event>)
    requires es != [] && es[|es| - 1].Odom?
    ensures !Silenced(es, |es| - 1)
  {
  }

  /** In every run a sample is sent exactly if a message was let in and the watchdog has not found silence since. It is the last
      message let in, seen from the autopilot's frames: its own pose if it is in the base frame, or else the transform's if there
      is one; an orientation that turns a body vector as that pose's does; and the message's velocity and rate. */
  lemma PublishedExactly(sqrtHalf: real, baseFrame: string, es: seq<Event>, tf: Option<Pose>, v: Vec)
    requires sqrtHalf * sqrtHalf == 0.5
    ensures var sent, last := OnPublish(sqrtHalf, baseFrame, After(es), tf), LastIn(es);
            && (sent.Some? <==> last.Some? && !Silenced(es, last.value))
            && (sent.Some? ==>
                  var m := es[last.value].m;
                  var pose := if m.childFrame != baseFrame && tf.Some? then tf.value else m.odometry.pose;
                  var t := m.odometry.twist;
                  && sent.value.poseFrame.PoseNed? && sent.value.velocityFrame.VelocityBodyFrd?
                  && sent.value.position == Vec(pose.p.y, pose.p.x, -pose.p.z)
                  && Rotate(sent.value.q, FlipBody(v)) == SwapWorld(Rotate(pose.q, v))
                  && sent.value.velocity == Vec(t.v.x, -t.v.y, -t.v.z)
                  && sent.value.angularVelocity == Vec(t.w.x, -t.w.y, -t.w.z))
  {
    StashIs(es);
    if LastIn(es).Some? {
      var m := es[LastIn(es).value].m;
      FrameSquare(sqrtHalf, SourcePose(baseFrame, m, tf).q, v);
    }
    hide After, LastIn, Silenced, NedFrd, Rotate;
  }

  // ---- staleness ----

  /** One clock that never runs backwards, and at most `period` from one watchdog tick to whatever happens before the
      next one. */
  ghost predicate Timely(start: int, period: int, es: seq<Event>) {
    es == [] ||
    (var e, before := es[|es| - 1], es[..|es| - 1];
     && Timely(start, period, before)
     && Clock(start, before) <= (if e.Odom? then e.now else EndTime(e))
     && (e.Odom? ==> e.now <= e.end)
     && EndTime(e) <= LastTick(start, before) + period)
  }

  /** While publishing is on, the last accepted message is at most the timeout older than the last watchdog tick. */
  lemma {:induction false} TickBound(start: int, period: int, es: seq<Event>)
    requires Timely(start, period, es)
    ensures LastTick(start, es) <= Clock(start, es)
    ensures After(es).isPublishing ==> LastTick(start, es) <= After(es).lastOdomTime + ODOM_TIMEOUT_NS
  {
    if es != [] {
      TickBound(start, period, es[..|es| - 1]);
    }
  }

  /** No sample is sent to PX4 more than five seconds plus one watchdog period after the last accepted message. */
  lemma BoundedStaleness(start: int, period: int, es: seq<Event>, now: int, tf: Option<Pose>, sqrtHalf: real,
                         baseFrame: string)
    requires Timely(start, period, es + [Publish(now, tf)])
    requires OnPublish(sqrtHalf, baseFrame, After(es), tf).Some?
    ensures LastAccepted(es).Some? && now - LastAccepted(es).value <= ODOM_TIMEOUT_NS + period
  {
    var all := es + [Publish(now, tf)];
    assert all[..|all| - 1] == es;
    TickBound(start, period, es);
    StashIs(es);
  }

  /** The bound is reached with the node's one-second watchdog: the tick exactly at the timeout still sees fresh
      odometry, so a sample can leave six seconds after the last accepted message. */
  lemma StalenessBoundReached(start: int, m: Message, tf: Option<Pose>, sqrtHalf: real, baseFrame: string)
    requires start >= MIN_INTERVAL_NS
    ensures var es := QuietRun(start, m, 5);
            && Timely(start, SECOND, es + [Publish(start + 6 * SECOND, tf)])
            && OnPublish(sqrtHalf, baseFrame, After(es), tf).Some?
            && LastAccepted(es) == Some(start)
  {
    QuietRunState(start, m, 5);
    var es := QuietRun(start, m, 5);
    var all := es + [Publish(start + 6 * SECOND, tf)];
    assert all[..|all| - 1] == es;
  }

  const SECOND := 1_000_000_000

  /** One message, then n watchdog ticks a second apart and nothing else. */
  function QuietRun(start: int, m: Message, n: nat): seq<Event> {
    if n == 0 then [Odom(m, start, start)] else QuietRun(start, m, n - 1) + [Watchdog(start + n * SECOND)]
  }

  lemma {:induction false} QuietRunState(start: int, m: Message, n: nat)
    requires start >= MIN_INTERVAL_NS && n <= 5
    ensures var es := QuietRun(start, m, n);
            && Timely(start, SECOND, es)
            && LastTick(start, es) == Clock(start, es) == start + n * SECOND
            && LastIn(es) == Some(0) && es[0].end == start
            && After(es) == State(start, Some(m), true, start)
  {
    var es := QuietRun(start, m, n);
    if n == 0 {
      assert es[..0] == [];
      assert Timely(start, SECOND, []) && After([]) == INITIAL && Arrivals([]) == [];
    } else {
      QuietRunState(start, m, n - 1);
      assert es[..|es| - 1] == QuietRun(start, m, n - 1);
    }
  }

  // ---- the node ----

  class PX4VisionOdomNode {
    const baseFrame: string
    const sqrtHalf: real
    var lastAcceptNs: int
    var lastRawMsg: Option<Message>
    var isPublishing: bool
    var lastOdomTime: int

    function Value(): State
      reads this
    {
      State(lastAcceptNs, lastRawMsg, isPublishing, lastOdomTime)
    }

    constructor (baseFrame: string, sqrtHalf: real)
      ensures Value() == INITIAL && this.baseFrame == baseFrame && this.sqrtHalf == sqrtHalf
    {
      this.baseFrame := baseFrame;
      this.sqrtHalf := sqrtHalf;
      lastAcceptNs := 0;
      lastRawMsg := None;
      isPublishing := false;
      lastOdomTime := 0;
    }

    method OdomCallback(m: Message, now: int, end: int)
      modifies this
      ensures Value() == OnOdom(old(Value()), m, now, end)
    {
      if now - lastAcceptNs < MIN_INTERVAL_NS {
        return;
      }
      lastAcceptNs := now;
      lastRawMsg := Some(m);
      if !isPublishing {
        isPublishing := true;
      }
      lastOdomTime := end;
    }

    method PubPx4Odom(tf: Option<Pose>) returns (out: Option<VehicleOdometry>)
      ensures out == OnPublish(sqrtHalf, baseFrame, Value(), tf)
    {
      if !isPublishing || lastRawMsg.None? {
        return None;
      }
      var msg := lastRawMsg.value;
      var pose := msg.odometry.pose;
      if msg.childFrame != baseFrame && tf.Some? {
        pose := tf.value;
      }
      var (position, q, velocity) := EnuFluToNedFrd(sqrtHalf, pose.p, pose.q, msg.odometry.twist.v);
      out := Some(VehicleOdometry(
        PoseNed, VelocityBodyFrd, position, q, velocity, FlipBody(msg.odometry.twist.w)));
    }

    method CheckOdomStatus(now: int)
      modifies this
      ensures Value() == OnWatchdog(old(Value()), now)
    {
      if !isPublishing {
        return;
      }
      var elapsed := now - lastOdomTime;
      if elapsed > ODOM_TIMEOUT_NS {
        isPublishing := false;
      }
    }
  }
}
