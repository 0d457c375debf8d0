/** The node that reads PX4's odometry back: stage 1 converts the frames, stage 2 moves to the rover's base frame. */
module VehicleOdom {
  import opened Options
  import opened Quaternion
  import opened RigidBody
  import opened FrameConversion
  import opened Reexpression
  import MountCache
  import RateGate

  const MIN_INTERVAL_NS := 33_333_333

  function OnStage1(sqrtHalf: real, last: int, m: VehicleOdometry, now: int): (int, Option<Odometry>) {
    var converted := FromPx4(sqrtHalf, m);
    if converted.None? || !RateGate.Open(MIN_INTERVAL_NS, last, now) then (last, None) else (now, converted)
  }

  // ---- what stage 1 publishes ----

  /** Whatever the state of the gate, what stage 1 publishes is the message seen from ROS frames: the position with north and east
      exchanged and turned up; an orientation that turns a body vector as the message's does; in the world the message's velocity,
      if it is one in the body turned by the message's orientation; and its rate. */
  lemma Stage1Meaning(sqrtHalf: real, last: int, m: VehicleOdometry, now: int, v: Vec)
    requires sqrtHalf * sqrtHalf == 0.5 && IsUnit(m.q)
    requires OnStage1(sqrtHalf, last, m, now).1.Some?
    ensures var o := OnStage1(sqrtHalf, last, m, now).1.value;
            && ValidPose(o.pose)
            && o.pose.p == Vec(m.position.y, m.position.x, -m.position.z)
            && Rotate(o.pose.q, v) == SwapWorld(Rotate(m.q, FlipBody(v)))
            && WorldTwist(o).v == SwapWorld(if m.velocityFrame.VelocityNed? then m.velocity else Rotate(m.q, m.velocity))
            && WorldTwist(o).w == SwapWorld(Rotate(m.q, m.angularVelocity))
  {
    var o := OnStage1(sqrtHalf, last, m, now).1.value;
    assert o.pose.q == EnuFlu(sqrtHalf, m.q) && o.pose.p == SwapWorld(m.position);
    assert o.twist.v == (if m.velocityFrame.VelocityNed? then Rotate(Conj(o.pose.q), SwapWorld(m.velocity))
                         else FlipBody(m.velocity));
    assert o.twist.w == FlipBody(m.angularVelocity);
    ConvertedUnit(sqrtHalf, m.q);
    OrientationRoundTrip(sqrtHalf, m.q);
    hide OnStage1, EnuFlu, NedFrd, FlipBody, IsUnit, Rotate, Conj;
    TurnsAlike(sqrtHalf, m.q, v);
    TurnsAlike(sqrtHalf, m.q, FlipBody(m.velocity));
    TurnsAlike(sqrtHalf, m.q, FlipBody(m.angularVelocity));
    SwapTwice(m.velocity);
    SwapTwice(m.angularVelocity);
    RotateBack(o.pose.q, SwapWorld(m.velocity));
    hide SwapWorld;
  }

  /** The converted orientation turns a vector as the original turns its flipped image. */
  lemma TurnsAlike(s: real, q: Quat, v: Vec)
    requires s * s == 0.5
    ensures Rotate(EnuFlu(s, q), v) == SwapWorld(Rotate(q, FlipBody(v)))
  {
    OrientationRoundTrip(s, q);
    FrameSquare(s, EnuFlu(s, q), v);
    SwapTwice(Rotate(EnuFlu(s, q), v));
    hide EnuFlu, NedFrd, FlipBody, Rotate;
  }

  // ---- the gate over a run ----

  datatype Received = Received(message: VehicleOdometry, now: int)

  /** The gate's time after a run of stage 1. */
  function LastStage1(sqrtHalf: real, ms: seq<Received>): int {
    if ms == [] then 0
    else
      var m := ms[|ms| - 1];
      OnStage1(sqrtHalf, LastStage1(sqrtHalf, ms[..|ms| - 1]), m.message, m.now).0
  }

  /** When the messages in readable frames arrived. */
  function Readable(sqrtHalf: real, ms: seq<Received>): seq<int> {
    if ms == [] then []
    else
      var m := ms[|ms| - 1];
      Readable(sqrtHalf, ms[..|ms| - 1]) + if FromPx4(sqrtHalf, m.message).Some? then [m.now] else []
  }

  /** When stage 1 published. */
  function Published(sqrtHalf: real, ms: seq<Received>): seq<int> {
    if ms == [] then []
    else
      var m, before := ms[|ms| - 1], ms[..|ms| - 1];
      Published(sqrtHalf, before)
      + if OnStage1(sqrtHalf, LastStage1(sqrtHalf, before), m.message, m.now).1.Some? then [m.now] else []
  }

  /** Over every run stage 1 publishes exactly the readable messages the greedy gate lets through: messages in other frames
      do not use up the interval. */
  lemma {:induction false} Stage1IsGreedy(sqrtHalf: real, ms: seq<Received>)
    ensures Published(sqrtHalf, ms) == RateGate.Accepted(MIN_INTERVAL_NS, 0, Readable(sqrtHalf, ms))
    ensures LastStage1(sqrtHalf, ms) == RateGate.LastTaken(MIN_INTERVAL_NS, 0, Readable(sqrtHalf, ms))
  {
    if ms != [] {
      hide FromPx4, RateGate.Accepted, RateGate.LastTaken;
      var before := ms[..|ms| - 1];
      Stage1IsGreedy(sqrtHalf, before);
      RateGate.AcceptedAppend(MIN_INTERVAL_NS, 0, Readable(sqrtHalf, before), ms[|ms| - 1].now);
      assert Readable(sqrtHalf, before) + [] == Readable(sqrtHalf, before);
      assert Published(sqrtHalf, before) + [] == Published(sqrtHalf, before);
    }
  }

  // ---- which mount stage 2 uses ----

  /** The remembered mount, or the one found now, or identity. */
  function Mount(cache: Option<Cached>, sensorFrame: string, found: Option<Pose>): Pose {
    if cache.Some? && cache.value.sensorFrame == sensorFrame then cache.value.mount
    else if found.Some? then found.value
    else IDENTITY
  }

  function Remember(cache: Option<Cached>, sensorFrame: string, found: Option<Pose>): Option<Cached> {
    if (cache.Some? && cache.value.sensorFrame == sensorFrame) || found.None? then cache
    else Some(Cached(sensorFrame, found.value))
  }

  /** A message of stage 2, and what a transform lookup would find when it arrives. */
  datatype Sensed = Sensed(sensorFrame: string, odometry: Odometry, found: Option<Pose>)

  function CacheAfter(ins: seq<Sensed>): Option<Cached> {
    if ins == [] then None
    else
      var i := ins[|ins| - 1];
      Remember(CacheAfter(ins[..|ins| - 1]), i.sensorFrame, i.found)
  }

  /** The mount used for one more message. */
  function MountUsed(ins: seq<Sensed>, i: Sensed): Pose {
    Mount(CacheAfter(ins), i.sensorFrame, i.found)
  }

  /** A lookup that finds nothing does not count. */
  function Lookups(ins: seq<Sensed>): seq<MountCache.Lookup> {
    seq(|ins|, k requires 0 <= k < |ins| => MountCache.Lookup(ins[k].found.Some?, ins[k].sensorFrame, ins[k].found))
  }

  lemma {:induction false} CacheIs(ins: seq<Sensed>)
    ensures CacheAfter(ins) == MountCache.CacheAfter(Lookups(ins))
  {
    if ins != [] {
      CacheIs(ins[..|ins| - 1]);
      assert Lookups(ins)[..|ins| - 1] == Lookups(ins[..|ins| - 1]);
    }
  }

  /** In every run the mount used for a message is the one first found for its frame since a transform of another frame was found;
      if there is none, the one found now, and the identity if nothing is. */
  lemma MountExactly(ins: seq<Sensed>, i: Sensed)
    ensures forall j :: 0 <= j < |ins| && MountCache.InForce(Lookups(ins), j, i.sensorFrame) ==>
              ins[j].found == Some(MountUsed(ins, i))
    ensures (forall j :: 0 <= j < |ins| ==> !MountCache.InForce(Lookups(ins), j, i.sensorFrame)) ==>
              MountUsed(ins, i) == if i.found.Some? then i.found.value else IDENTITY
  {
    hide CacheAfter, MountCache.InForce, MountCache.CacheAfter;
    CacheIs(ins);
    var c := CacheAfter(ins);
    forall x {
      MountCache.CacheExactly(Lookups(ins), i.sensorFrame, x);
    }
    forall j | 0 <= j < |ins| && MountCache.InForce(Lookups(ins), j, i.sensorFrame)
      ensures ins[j].found == Some(MountUsed(ins, i))
    {
      FoundInForce(ins, j, i.sensorFrame);
    }
  }

  lemma FoundInForce(ins: seq<Sensed>, j: nat, frame: string)
    requires j < |ins| && MountCache.InForce(Lookups(ins), j, frame)
    ensures ins[j].found.Some? && Lookups(ins)[j].found == Some(ins[j].found.value)
  {
  }

  // ---- the node ----

  class PX4VehicleOdometryNode {
    const sqrtHalf: real
    var lastStage1Ns: int
    var cache: Option<Cached>

    constructor (sqrtHalf: real)
      ensures lastStage1Ns == 0 && cache == None && this.sqrtHalf == sqrtHalf
    {
      this.sqrtHalf := sqrtHalf;
      lastStage1Ns := 0;
      cache := None;
    }

    /** Frames are checked before the gate, so a dropped message does not use up the interval. */
    method Stage1Callback(m: VehicleOdometry, now: int) returns (out: Option<Odometry>)
      modifies this`lastStage1Ns
      ensures (lastStage1Ns, out) == OnStage1(sqrtHalf, old(lastStage1Ns), m, now)
    {
      if !m.poseFrame.PoseNed? {
        return None;
      }
      if !m.velocityFrame.VelocityNed? && !m.velocityFrame.VelocityBodyFrd? {
        return None;
      }
      if now - lastStage1Ns < MIN_INTERVAL_NS {
        return None;
      }
      lastStage1Ns := now;
      var posEnu := SwapWorld(m.position);
      var q := EnuFlu(sqrtHalf, m.q);
      var v: Vec;
      if m.velocityFrame.VelocityBodyFrd? {
        v := FlipBody(m.velocity);
      } else {
        v := Rotate(Conj(q), SwapWorld(m.velocity));
      }
      out := Some(Odometry(Pose(posEnu, q), Twist(v, FlipBody(m.angularVelocity))));
    }

    method GetTfCb(sensorFrame: string, found: Option<Pose>) returns (mount: Pose)
      modifies this`cache
      ensures mount == Mount(old(cache), sensorFrame, found)
      ensures cache == Remember(old(cache), sensorFrame, found)
    {
      if cache.Some? && cache.value.sensorFrame == sensorFrame {
        return cache.value.mount;
      }
      if found.Some? {
        cache := Some(Cached(sensorFrame, found.value));
        return found.value;
      }
      mount := IDENTITY;
    }

    method Stage2Callback(sensorFrame: string, o: Odometry, found: Option<Pose>) returns (out: Odometry)
      modifies this`cache
      ensures out == Reexpress(o, Mount(old(cache), sensorFrame, found))
      ensures cache == Remember(old(cache), sensorFrame, found)
    {
      var x := GetTfCb(sensorFrame, found);
      var posWB := Add(o.pose.p, Rotate(o.pose.q, x.p));
      var qWB := Mul(o.pose.q, x.q);
      var vInC := Add(o.twist.v, Cross(o.twist.w, x.p));
      var qBC := Conj(x.q);
      out := Odometry(Pose(posWB, qWB), Twist(Rotate(qBC, vInC), Rotate(qBC, o.twist.w)));
    }
  }
}
