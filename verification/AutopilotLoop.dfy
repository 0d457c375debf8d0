/** Odometry on its way through the autopilot: published to PX4 by the vision node, read back and moved to the rover's base
    frame by the odometry node. The autopilot is taken to repeat what it is sent. */
module AutopilotLoop {
  import opened Options
  import opened Quaternion
  import opened RigidBody
  import opened FrameConversion
  import opened Reexpression
  import VehicleOdom
  import VisionOdom

  /** What comes back for the message stashed in s if the autopilot repeats what it is sent; x is the mount of the base in the
      autopilot's frame. */
  function Returned(sqrtHalf: real, autopilot: string, s: VisionOdom.State, tf: Option<Pose>, x: Pose): Option<Odometry> {
    var sent := VisionOdom.OnPublish(sqrtHalf, autopilot, s, tf);
    if sent.None? then None
    else
      var converted := VehicleOdom.OnStage1(sqrtHalf, 0, sent.value, VehicleOdom.MIN_INTERVAL_NS).1;
      if converted.None? then None else Some(Reexpress(converted.value, x))
  }

  ghost predicate Publishing(s: VisionOdom.State, m: VisionOdom.Message) {
    s.isPublishing && s.lastMessage == Some(m) && ValidPose(m.odometry.pose)
  }

  /** The pose sent is that of the autopilot, the twist sent is the message's. */
  lemma Returns(sqrtHalf: real, autopilot: string, s: VisionOdom.State, m: VisionOdom.Message, tf: Option<Pose>, x: Pose)
    requires sqrtHalf * sqrtHalf == 0.5 && Publishing(s, m) && (tf.Some? ==> ValidPose(tf.value))
    ensures Returned(sqrtHalf, autopilot, s, tf, x)
            == Some(Reexpress(Odometry(VisionOdom.SourcePose(autopilot, m, tf), m.odometry.twist), x))
  {
    hide ToPx4, FromPx4, ValidPose, Reexpress;
    OutboundInbound(sqrtHalf, Odometry(VisionOdom.SourcePose(autopilot, m, tf), m.odometry.twist));
  }

  /** Base odometry with the autopilot's pose from the transform tree: the pose always comes back, the twist comes back
      moved by the mount although it was never moved to the autopilot. */
  lemma PoseReturns(sqrtHalf: real, autopilot: string, s: VisionOdom.State, m: VisionOdom.Message, x: Pose)
    requires sqrtHalf * sqrtHalf == 0.5 && Publishing(s, m) && m.childFrame != autopilot && ValidPose(x)
    ensures Returned(sqrtHalf, autopilot, s, Some(Compose(m.odometry.pose, Inverse(x))), x)
            == Some(Odometry(m.odometry.pose, MoveTwist(m.odometry.twist, x)))
  {
    hide Reexpress, Compose, Inverse, ValidPose, Returned;
    var p := m.odometry.pose;
    InverseLaws(x);
    ComposeValid(p, Inverse(x));
    Returns(sqrtHalf, autopilot, s, m, Some(Compose(p, Inverse(x))), x);
    ReexpressPose(Odometry(Compose(p, Inverse(x)), m.odometry.twist), x);
    ComposeAssoc(p, Inverse(x), x);
    ComposeIdentity(p);
  }

  lemma MoveTwistUnrotated(t: Twist, x: Pose)
    requires x.q == ONE
    ensures MoveTwist(t, x) == t <==> Cross(t.w, x.p) == ZERO
  {
    hide Rotate, Cross;
    RotateOne(Add(t.v, Cross(t.w, x.p)));
    RotateOne(t.w);
    ConjOne();
  }

  /** The odometry comes back as it was exactly if the mount does not move its twist; for an unrotated mount, exactly if the
      rate has no lever arm on it. */
  lemma OdometryReturnsExactly(sqrtHalf: real, autopilot: string, s: VisionOdom.State, m: VisionOdom.Message, x: Pose)
    requires sqrtHalf * sqrtHalf == 0.5 && Publishing(s, m) && m.childFrame != autopilot && ValidPose(x)
    ensures var returned := Returned(sqrtHalf, autopilot, s, Some(Compose(m.odometry.pose, Inverse(x))), x);
            && (returned == Some(m.odometry) <==> MoveTwist(m.odometry.twist, x) == m.odometry.twist)
            && (x.q == ONE ==> (returned == Some(m.odometry) <==> Cross(m.odometry.twist.w, x.p) == ZERO))
  {
    hide Returned, MoveTwist, Compose, Inverse, ValidPose, Cross;
    PoseReturns(sqrtHalf, autopilot, s, m, x);
    if x.q == ONE {
      MoveTwistUnrotated(m.odometry.twist, x);
    }
  }

  /** Half a wheel base ahead of the base and ten centimetres above it. */
  const MOUNT := Pose(Vec(-0.087, 0.0, -0.1), ONE)

  /** A rover turning on the spot: the velocity comes back as 8.7 cm/s sideways. */
  lemma TurningOnTheSpotDrifts(sqrtHalf: real, autopilot: string, s: VisionOdom.State, m: VisionOdom.Message)
    requires sqrtHalf * sqrtHalf == 0.5 && Publishing(s, m) && m.childFrame != autopilot
    requires m.odometry.twist == Twist(ZERO, Vec(0.0, 0.0, 1.0))
    ensures Returned(sqrtHalf, autopilot, s, Some(Compose(m.odometry.pose, Inverse(MOUNT))), MOUNT)
            == Some(Odometry(m.odometry.pose, Twist(Vec(0.0, -0.087, 0.0), Vec(0.0, 0.0, 1.0))))
  {
    hide Returned, Compose, Inverse, Rotate;
    PoseReturns(sqrtHalf, autopilot, s, m, MOUNT);
    ConjOne();
    RotateOne(Vec(0.0, -0.087, 0.0));
    RotateOne(Vec(0.0, 0.0, 1.0));
  }

  /** Odometry that already is the autopilot's comes back moved to the base, pose and twist. */
  lemma AutopilotOdometryMoved(sqrtHalf: real, autopilot: string, s: VisionOdom.State, m: VisionOdom.Message,
                               tf: Option<Pose>, o: Odometry, x: Pose)
    requires sqrtHalf * sqrtHalf == 0.5 && Publishing(s, m) && m.childFrame == autopilot && ValidPose(x)
    requires (tf.Some? ==> ValidPose(tf.value)) && m.odometry == Reexpress(o, Inverse(x))
    ensures Returned(sqrtHalf, autopilot, s, tf, x) == Some(o)
  {
    hide Reexpress, Inverse, ValidPose, Returned;
    Returns(sqrtHalf, autopilot, s, m, tf, x);
    InverseLaws(x);
    ReexpressBack(o, Inverse(x));
    InverseInverse(x);
  }

  /** Without the transform the base's own pose is sent as the autopilot's: it comes back off by the mount. */
  lemma WithoutTransformExactly(sqrtHalf: real, autopilot: string, s: VisionOdom.State, m: VisionOdom.Message, x: Pose)
    requires sqrtHalf * sqrtHalf == 0.5 && Publishing(s, m) && m.childFrame != autopilot
    ensures Returned(sqrtHalf, autopilot, s, None, x) == Some(m.odometry) <==> x == IDENTITY
  {
    hide Reexpress, Compose, MoveTwist, ValidPose, Returned, VisionOdom.OnPublish;
    Returns(sqrtHalf, autopilot, s, m, None, x);
    if x == IDENTITY {
      ReexpressIdentity(m.odometry);
    }
    if Reexpress(m.odometry, x) == m.odometry {
      ReexpressPose(m.odometry, x);
      ComposeIdentity(m.odometry.pose);
      ComposeCancelLeft(m.odometry.pose, x, IDENTITY);
    }
  }
}
