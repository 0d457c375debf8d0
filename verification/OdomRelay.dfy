/** The odometry relay: rate gate, transform cache, latched origin, re-expression in the base frame. */
module OdomRelay {
  import opened Options
  import opened Quaternion
  import opened RigidBody
  import opened FrameConversion
  import opened Reexpression
  import Covariance
  import MountCache
  import RateGate

  datatype Config = Config(baseFrame: string, minIntervalNs: int)

  /** The first converted pose, kept as its position and conjugated orientation. */
  datatype Origin = Origin(p: Vec, qInv: Quat)

  datatype State = State(lastPubNs: int, cache: Option<Cached>, origin: Option<Origin>)

  const INITIAL := State(0, None, None)

  /** A message, the clock when it arrives, and what a transform lookup would find at that moment. */
  datatype Input = Input(childFrame: string, odometry: Odometry, now: int, found: Option<Pose>)

  /** A zero or negative minimum interval switches the gate off. */
  predicate Passes(c: Config, last: int, now: int) {
    c.minIntervalNs <= 0 || RateGate.Open(c.minIntervalNs, last, now)
  }

  /** The transform cache after a message: cleared for another sensor frame, then filled if a transform is found. */
  function Remember(cache: Option<Cached>, i: Input): Option<Cached> {
    if cache.Some? && cache.value.sensorFrame == i.childFrame then cache
    else if i.found.Some? then Some(Cached(i.childFrame, i.found.value))
    else None
  }

  /** The mount used for a message: identity as long as no transform is known. */
  function Mount(cache: Option<Cached>, i: Input): Pose {
    var c := Remember(cache, i);
    if c.Some? then c.value.mount else IDENTITY
  }

  function Latch(origin: Option<Origin>, wb: Pose): Origin {
    if origin.Some? then origin.value else Origin(wb.p, Conj(wb.q))
  }

  function Align(o: Origin, wb: Pose): Pose {
    Pose(Rotate(o.qInv, Sub(wb.p, o.p)), Mul(o.qInv, wb.q))
  }

  function Step(c: Config, s: State, i: Input): (State, Option<Odometry>) {
    if !Passes(c, s.lastPubNs, i.now) then (s, None)
    else
      var last := if c.minIntervalNs > 0 then i.now else s.lastPubNs;
      if i.childFrame == c.baseFrame then (s.(lastPubNs := last), Some(i.odometry))
      else
        var x := Mount(s.cache, i);
        var moved := Reexpress(i.odometry, x);
        var origin := Latch(s.origin, moved.pose);
        (State(last, Remember(s.cache, i), Some(origin)), Some(moved.(pose := Align(origin, moved.pose))))
  }

  /** The state before message k. */
  function Before(c: Config, ins: seq<Input>, k: nat): State
    requires k <= |ins|
  {
    if k == 0 then INITIAL else Step(c, Before(c, ins, k - 1), ins[k - 1]).0
  }

  function Output(c: Config, ins: seq<Input>, k: nat): Option<Odometry>
    requires k < |ins|
  {
    Step(c, Before(c, ins, k), ins[k]).1
  }

  // ---- the latch is a change of world frame ----

  lemma AlignIsBetween(origin: Pose, wb: Pose)
    requires ValidPose(origin)
    ensures Align(Origin(origin.p, Conj(origin.q)), wb) == Between(origin, wb)
  {
    hide Rotate, Mul, Conj, Add, Neg, IsUnit;
    var c := Conj(origin.q);
    RotateAdd(c, wb.p, Neg(origin.p));
    RotateNeg(c, origin.p);
    AddLaws(Rotate(c, wb.p), Neg(Rotate(c, origin.p)), ZERO);
  }

  /** All messages come from one sensor frame, which is not the base frame. */
  ghost predicate OneSensor(c: Config, ins: seq<Input>, sensor: string) {
    sensor != c.baseFrame && forall k :: 0 <= k < |ins| ==> ins[k].childFrame == sensor && ValidPose(ins[k].odometry.pose)
  }

  /** The origin is latched to the first pose moved by mount x0. */
  ghost predicate Latched(s: State, first: Pose, x0: Pose) {
    s.origin == Some(Origin(Compose(first, x0).p, Conj(Compose(first, x0).q)))
  }

  /** Message k is published from a sensor frame. */
  predicate Moves(c: Config, ins: seq<Input>, k: nat)
    requires k < |ins|
  {
    Output(c, ins, k).Some? && ins[k].childFrame != c.baseFrame
  }

  lemma LatchStep(c: Config, s: State, i: Input)
    ensures var (s', out) := Step(c, s, i);
            s'.origin == None <==> s.origin == None && !(out.Some? && i.childFrame != c.baseFrame)
  {
    hide Reexpress, Align, Mount, Remember, Passes, Latch;
  }

  /** In every run nothing is latched exactly until the first message published from a sensor frame. */
  lemma {:induction false} UnlatchedExactly(c: Config, ins: seq<Input>, k: nat)
    requires k <= |ins|
    ensures Before(c, ins, k).origin == None <==> forall j :: 0 <= j < k ==> !Moves(c, ins, j)
  {
    if k > 0 {
      hide Step;
      UnlatchedExactly(c, ins, k - 1);
      LatchStep(c, Before(c, ins, k - 1), ins[k - 1]);
      assert Moves(c, ins, k - 1) <==> Output(c, ins, k - 1).Some? && ins[k - 1].childFrame != c.baseFrame;
    }
  }

  /** In every run, whatever frames the messages come from, the latch is the pose of the first message published from a
      sensor frame, moved by the mount used for it, and never changes. */
  lemma {:induction false} LatchStays(c: Config, ins: seq<Input>, first: nat, k: nat)
    requires first < k <= |ins| && Moves(c, ins, first) && forall j :: 0 <= j < first ==> !Moves(c, ins, j)
    ensures Latched(Before(c, ins, k), ins[first].odometry.pose, Mount(Before(c, ins, first).cache, ins[first]))
  {
    hide Reexpress, Compose, Align, Mount, Remember, Passes, ValidPose;
    if k == first + 1 {
      UnlatchedExactly(c, ins, first);
      ReexpressPose(ins[first].odometry, Mount(Before(c, ins, first).cache, ins[first]));
    } else {
      LatchStays(c, ins, first, k - 1);
    }
  }

  /** Once a transform is cached for the only sensor, it stays. */
  lemma {:induction false} CacheStays(c: Config, ins: seq<Input>, sensor: string, x: Pose, j: nat, k: nat)
    requires OneSensor(c, ins, sensor) && j <= k <= |ins|
    requires Before(c, ins, j).cache == Some(Cached(sensor, x))
    ensures Before(c, ins, k).cache == Some(Cached(sensor, x))
  {
    hide Reexpress, Compose, Align, Passes, ValidPose, Latch;
    if j < k {
      CacheStays(c, ins, sensor, x, j, k - 1);
    }
  }

  /** What is published from a sensor frame, in every run: the pose moved by its mount, seen from the first such message's
      pose moved by its own mount, and the twist moved by the mount. */
  lemma OutputMeaning(c: Config, ins: seq<Input>, first: nat, k: nat)
    requires first <= k < |ins| && Moves(c, ins, first) && forall j :: 0 <= j < first ==> !Moves(c, ins, j)
    requires Moves(c, ins, k)
    requires ValidPose(ins[first].odometry.pose) && ValidPose(Mount(Before(c, ins, first).cache, ins[first]))
    ensures var x0 := Mount(Before(c, ins, first).cache, ins[first]);
            var x := Mount(Before(c, ins, k).cache, ins[k]);
            && Output(c, ins, k).value.pose
               == Between(Compose(ins[first].odometry.pose, x0), Compose(ins[k].odometry.pose, x))
            && Output(c, ins, k).value.twist == MoveTwist(ins[k].odometry.twist, x)
  {
    hide Reexpress, Compose, Align, Mount, Remember, Passes, MoveTwist, Between, Rotate, Mul, Conj, Add, Sub, IsUnit;
    var x0 := Mount(Before(c, ins, first).cache, ins[first]);
    var x := Mount(Before(c, ins, k).cache, ins[k]);
    UnlatchedExactly(c, ins, first);
    if first < k {
      LatchStays(c, ins, first, k);
    }
    ReexpressPose(ins[k].odometry, x);
    var origin := Compose(ins[first].odometry.pose, x0);
    hide ValidPose;
    ComposeValid(ins[first].odometry.pose, x0);
    AlignIsBetween(origin, Compose(ins[k].odometry.pose, x));
  }

  // ---- which mount is used ----

  /** A message that is dropped or already in the base frame asks for no transform. */
  function Lookups(c: Config, ins: seq<Input>, k: nat): seq<MountCache.Lookup>
    requires k <= |ins|
  {
    seq(k, j requires 0 <= j < k => MountCache.Lookup(Moves(c, ins, j), ins[j].childFrame, ins[j].found))
  }

  lemma CacheStep(c: Config, s: State, i: Input)
    ensures var (s', out) := Step(c, s, i);
            var moves := out.Some? && i.childFrame != c.baseFrame;
            s'.cache == MountCache.Asked(s.cache, MountCache.Lookup(moves, i.childFrame, i.found))
  {
    hide Reexpress, Align, Latch, Passes, Mount;
  }

  lemma NothingCached()
    ensures MountCache.CacheAfter([]) == None
  {
  }

  lemma {:induction false} CacheIs(c: Config, ins: seq<Input>, k: nat)
    requires k <= |ins|
    ensures Before(c, ins, k).cache == MountCache.CacheAfter(Lookups(c, ins, k))
  {
    hide Step, MountCache.CacheAfter, MountCache.Asked;
    if k > 0 {
      var ls := Lookups(c, ins, k);
      CacheIs(c, ins, k - 1);
      assert ls[..k - 1] == Lookups(c, ins, k - 1);
      AskedNext(ls);
      CacheStep(c, Before(c, ins, k - 1), ins[k - 1]);
    } else {
      NothingCached();
      assert Lookups(c, ins, 0) == [];
    }
  }

  /** In every run, whatever frames the messages come from, the mount used for a message from a sensor frame is the one first
      found since the messages come from that frame, this one included, and the identity as long as none is. */
  lemma MountExactly(c: Config, ins: seq<Input>, k: nat)
    requires k < |ins| && Moves(c, ins, k)
    ensures var x := Mount(Before(c, ins, k).cache, ins[k]);
            var ls := Lookups(c, ins, k + 1);
            && (forall j :: 0 <= j <= k && MountCache.InForce(ls, j, ins[k].childFrame) ==> ins[j].found == Some(x))
            && ((forall j :: 0 <= j <= k ==> !MountCache.InForce(ls, j, ins[k].childFrame)) ==> x == IDENTITY)
  {
    hide Step, MountCache.InForce, MountCache.CacheAfter;
    var ls, f := Lookups(c, ins, k + 1), ins[k].childFrame;
    var cached := Remember(Before(c, ins, k).cache, ins[k]);
    assert MountCache.CacheAfter(ls) == cached by {
      assert ls[..k] == Lookups(c, ins, k);
      CacheIs(c, ins, k);
      AskedNext(ls);
    }
    forall x {
      MountCache.CacheExactly(ls, f, x);
    }
    forall j | 0 <= j <= k && MountCache.InForce(ls, j, f) ensures ins[j].found.Some? && ls[j].found == ins[j].found {
      FoundInForce(ls, j, f);
    }
  }

  lemma AskedNext(ls: seq<MountCache.Lookup>)
    requires ls != []
    ensures MountCache.CacheAfter(ls) == MountCache.Asked(MountCache.CacheAfter(ls[..|ls| - 1]), ls[|ls| - 1])
  {
  }

  lemma FoundInForce(ls: seq<MountCache.Lookup>, j: nat, frame: string)
    requires j < |ls| && MountCache.InForce(ls, j, frame)
    ensures ls[j].found.Some?
  {
  }

  /** In every run a message that already is in the base frame is passed on as it is if it is published, and neither the cache nor
      the latch changes. */
  lemma BaseFramePassed(c: Config, ins: seq<Input>, k: nat)
    requires k < |ins| && ins[k].childFrame == c.baseFrame
    ensures var s, s' := Before(c, ins, k), Before(c, ins, k + 1);
            && (Output(c, ins, k).Some? ==> Output(c, ins, k).value == ins[k].odometry)
            && s'.cache == s.cache && s'.origin == s.origin
  {
  }

  // ---- one sensor ----

  /** Mount x is known from the first message let through on. */
  ghost predicate MountKnown(c: Config, ins: seq<Input>, sensor: string, x: Pose, first: nat)
    requires first < |ins|
  {
    && OneSensor(c, ins, sensor)
    && ValidPose(x)
    && Before(c, ins, first) == INITIAL
    && Output(c, ins, first).Some?
    && ins[first].found == Some(x)
  }

  lemma MountThroughout(c: Config, ins: seq<Input>, sensor: string, x: Pose, first: nat, k: nat)
    requires first <= k < |ins| && MountKnown(c, ins, sensor, x, first)
    ensures Mount(Before(c, ins, k).cache, ins[k]) == x
  {
    hide Reexpress, Compose, Align, ValidPose, Latch;
    if first < k {
      CacheStays(c, ins, sensor, x, first + 1, k);
    }
  }

  lemma KnownOutput(c: Config, ins: seq<Input>, sensor: string, x: Pose, first: nat, k: nat)
    requires first <= k < |ins| && MountKnown(c, ins, sensor, x, first) && Output(c, ins, k).Some?
    ensures Output(c, ins, k).value.pose
         == Between(Compose(ins[first].odometry.pose, x), Compose(ins[k].odometry.pose, x))
  {
    hide Step, ValidPose, Compose, Between, Mount;
    UnlatchedExactly(c, ins, first);
    MountThroughout(c, ins, sensor, x, first, first);
    MountThroughout(c, ins, sensor, x, first, k);
    OutputMeaning(c, ins, first, k);
  }

  /** With the mount known from the start, the first output is the identity and every relative motion of the outputs is
      the relative motion of the inputs seen from the base: latching the origin loses no motion. */
  lemma RelativeMotionKept(c: Config, ins: seq<Input>, sensor: string, x: Pose, first: nat, i: nat, j: nat)
    requires first <= i < |ins| && first <= j < |ins| && MountKnown(c, ins, sensor, x, first)
    requires Output(c, ins, i).Some? && Output(c, ins, j).Some?
    ensures Output(c, ins, first).value.pose == IDENTITY
    ensures Between(Output(c, ins, i).value.pose, Output(c, ins, j).value.pose)
         == Compose(Compose(Inverse(x), Between(ins[i].odometry.pose, ins[j].odometry.pose)), x)
  {
    hide Compose, Inverse, ValidPose, Step, Before;
    KnownOutput(c, ins, sensor, x, first, first);
    KnownOutput(c, ins, sensor, x, first, i);
    KnownOutput(c, ins, sensor, x, first, j);
    var p0, pi, pj := ins[first].odometry.pose, ins[i].odometry.pose, ins[j].odometry.pose;
    ComposeValid(p0, x);
    ComposeValid(pi, x);
    InverseLaws(Compose(p0, x));
    BetweenLeftInvariant(Inverse(Compose(p0, x)), Compose(pi, x), Compose(pj, x));
    BetweenMounted(pi, pj, x);
  }

  /** The transform becomes known only after the first message has been latched with an identity mount. */
  ghost predicate MountLate(c: Config, ins: seq<Input>, sensor: string, x: Pose, first: nat, k: nat)
    requires first < k < |ins|
  {
    && OneSensor(c, ins, sensor)
    && ValidPose(x)
    && Before(c, ins, first) == INITIAL
    && Output(c, ins, first).Some? && Output(c, ins, k).Some?
    && ins[first].found == None
    && Mount(Before(c, ins, k).cache, ins[k]) == x
  }

  lemma LateOutput(c: Config, ins: seq<Input>, sensor: string, x: Pose, first: nat, k: nat)
    requires first < k < |ins| && MountLate(c, ins, sensor, x, first, k)
    ensures Output(c, ins, k).value.pose
         == Between(Compose(ins[first].odometry.pose, IDENTITY), Compose(ins[k].odometry.pose, x))
  {
    assert Mount(Before(c, ins, first).cache, ins[first]) == IDENTITY;
    hide Step, ValidPose, Compose, Between, Mount;
    IdentityValid();
    UnlatchedExactly(c, ins, first);
    OutputMeaning(c, ins, first, k);
  }

  /** The motion seen through the mount at its end only. */
  lemma ShiftedMotion(p0: Pose, pk: Pose, x: Pose)
    requires ValidPose(p0) && ValidPose(pk) && ValidPose(x)
    ensures var promised := Compose(Compose(Inverse(x), Between(p0, pk)), x);
            var shifted := Between(Compose(p0, IDENTITY), Compose(pk, x));
            shifted == Compose(x, promised) && (shifted == promised <==> x == IDENTITY)
  {
    hide Compose, Inverse, ValidPose;
    ComposeIdentity(p0);
    var motion := Between(p0, pk);
    InverseLaws(p0);
    ComposeAssoc(Inverse(p0), pk, x);
    var promised := Compose(Compose(Inverse(x), motion), x);
    ComposeAssoc(x, Compose(Inverse(x), motion), x);
    ComposeAssoc(x, Inverse(x), motion);
    InverseLaws(x);
    ComposeIdentity(motion);
    ComposeIdentity(promised);
    InverseLaws(Inverse(p0));
    assert ValidPose(promised) by {
      ComposeValid(Inverse(p0), pk);
      ComposeValid(Inverse(x), motion);
      ComposeValid(Compose(Inverse(x), motion), x);
    }
    if Compose(x, promised) == promised {
      InverseLaws(promised);
      ComposeAssoc(x, promised, Inverse(promised));
      ComposeIdentity(x);
    }
  }

  /** A late transform leaves the mount in the output: the pose is x composed with the pose a timely transform would have
      given. The promised output is published exactly when the mount is the identity. */
  lemma LateMountShifts(c: Config, ins: seq<Input>, sensor: string, x: Pose, first: nat, k: nat)
    requires first < k < |ins| && MountLate(c, ins, sensor, x, first, k)
    ensures var promised := Compose(Compose(Inverse(x), Between(ins[first].odometry.pose, ins[k].odometry.pose)), x);
            && Output(c, ins, k).value.pose == Compose(x, promised)
            && (Output(c, ins, k).value.pose == promised <==> x == IDENTITY)
  {
    hide Step, ValidPose, Compose, Inverse, Between, Mount, Before;
    LateOutput(c, ins, sensor, x, first, k);
    ShiftedMotion(ins[first].odometry.pose, ins[k].odometry.pose, x);
  }

  lemma IdentityValid()
    ensures ValidPose(IDENTITY)
  {
  }

  // ---- the gate over a run ----

  function Arrivals(ins: seq<Input>): seq<int> {
    seq(|ins|, k requires 0 <= k < |ins| => ins[k].now)
  }

  /** When the outputs among the first k messages were published. */
  function Published(c: Config, ins: seq<Input>, k: nat): seq<int>
    requires k <= |ins|
  {
    if k == 0 then []
    else Published(c, ins, k - 1) + if Output(c, ins, k - 1).Some? then [ins[k - 1].now] else []
  }

  /** Over every run, whatever the frames and transforms are, the relay publishes exactly what the greedy gate lets through. */
  lemma {:induction false} RelayIsGreedy(c: Config, ins: seq<Input>, k: nat)
    requires c.minIntervalNs > 0 && k <= |ins|
    ensures Published(c, ins, k) == RateGate.Accepted(c.minIntervalNs, 0, Arrivals(ins[..k]))
    ensures Before(c, ins, k).lastPubNs == RateGate.LastTaken(c.minIntervalNs, 0, Arrivals(ins[..k]))
  {
    if k > 0 {
      hide Reexpress, Align, Latch, Remember, Mount, RateGate.Accepted, RateGate.LastTaken;
      RelayIsGreedy(c, ins, k - 1);
      assert Arrivals(ins[..k]) == Arrivals(ins[..k - 1]) + [ins[k - 1].now];
      RateGate.AcceptedAppend(c.minIntervalNs, 0, Arrivals(ins[..k - 1]), ins[k - 1].now);
    } else {
      assert Arrivals(ins[..0]) == [];
    }
  }

  /** With the gate switched off every message is published. */
  lemma UngatedRelaysAll(c: Config, ins: seq<Input>, k: nat)
    requires c.minIntervalNs <= 0 && k < |ins|
    ensures Output(c, ins, k).Some?
  {
    hide Reexpress, Align, Latch, Remember, Mount;
  }

  // ---- covariances ----

  /** The matrix the relay turns covariances with: from the sensor's to the base's axes. */
  function ToBase(mount: Pose): Covariance.Mat {
    Covariance.RotationMatrix(Conj(mount.q))
  }

  /** The covariance published for two directions of the base frame is the one received for the same directions in the
      sensor frame. */
  lemma RelayedCovariance(mount: Pose, c: seq<real>, out: seq<real>, u: Vec, u': Vec, v: Vec, v': Vec)
    requires ValidPose(mount) && |c| == |out| == 36 && Covariance.IsRotated(c, ToBase(mount), out)
    ensures Covariance.Form(out, u, u', v, v')
            == Covariance.Form(c, Rotate(mount.q, u), Rotate(mount.q, u'), Rotate(mount.q, v), Rotate(mount.q, v'))
  {
    hide Rotate, Conj, IsUnit, Covariance.IsRotated, Covariance.Form, Covariance.RotationMatrix;
    var q := mount.q;
    UnitConj(q);
    RotateBack(q, u);
    RotateBack(q, u');
    RotateBack(q, v);
    RotateBack(q, v');
    Covariance.CovarianceFollows(Conj(q), c, out, Rotate(q, u), Rotate(q, u'), Rotate(q, v), Rotate(q, v'));
  }

  // ---- the node ----

  class OdomTfRelay {
    const config: Config
    var lastPubTimeNs: int
    var cache: Option<Cached>
    var origin: Option<Origin>

    function Value(): State
      reads this
    {
      State(lastPubTimeNs, cache, origin)
    }

    constructor (config: Config)
      ensures Value() == INITIAL && this.config == config
    {
      this.config := config;
      lastPubTimeNs := 0;
      cache := None;
      origin := None;
    }

    method GetTfCb(i: Input) returns (mount: Pose)
      requires cache.Some? ==> cache.value.sensorFrame == i.childFrame
      modifies this`cache
      ensures mount == Mount(old(cache), i) && cache == Remember(old(cache), i)
    {
      if cache.Some? {
        return cache.value.mount;
      }
      if i.found.Some? {
        cache := Some(Cached(i.childFrame, i.found.value));
        return i.found.value;
      }
      mount := IDENTITY;
    }

    /** The covariances are those of the message's pose and twist. */
    method Callback(i: Input, poseCov: array<real>, twistCov: array<real>)
      returns (out: Option<Odometry>, poseOut: array<real>, twistOut: array<real>)
      requires poseCov.Length == twistCov.Length == 36
      modifies this
      ensures (Value(), out) == Step(config, old(Value()), i)
      ensures poseOut.Length == twistOut.Length == 36
      ensures out.Some? ==>
                if i.childFrame == config.baseFrame then poseOut == poseCov && twistOut == twistCov
                else
                  && Covariance.IsRotated(poseCov[..], ToBase(Mount(old(cache), i)), poseOut[..])
                  && Covariance.IsRotated(twistCov[..], ToBase(Mount(old(cache), i)), twistOut[..])
    {
      hide Rotate, Mul, Conj, Add, Sub, Cross, Covariance.IsRotated, Covariance.RotationMatrix;
      poseOut, twistOut := poseCov, twistCov;
      if config.minIntervalNs > 0 {
        if i.now - lastPubTimeNs < config.minIntervalNs {
          return None, poseOut, twistOut;
        }
        lastPubTimeNs := i.now;
      }
      if i.childFrame == config.baseFrame {
        return Some(i.odometry), poseOut, twistOut;
      }
      if cache.Some? && cache.value.sensorFrame != i.childFrame {
        cache := None;
      }
      var x := GetTfCb(i);
      var wc, t := i.odometry.pose, i.odometry.twist;
      var wb := Pose(Add(wc.p, Rotate(wc.q, x.p)), Mul(wc.q, x.q));
      if origin.None? {
        origin := Some(Origin(wb.p, Conj(wb.q)));
      }
      var aligned := Pose(Rotate(origin.value.qInv, Sub(wb.p, origin.value.p)), Mul(origin.value.qInv, wb.q));
      var qBC := Conj(x.q);
      var v := Rotate(qBC, Add(t.v, Cross(t.w, x.p)));
      out := Some(Odometry(aligned, Twist(v, Rotate(qBC, t.w))));
      poseOut := Covariance.RotateCovariance(poseCov, Covariance.RotationMatrix(qBC));
      twistOut := Covariance.RotateCovariance(twistCov, Covariance.RotationMatrix(qBC));
    }
  }
}
