/** ENU/FLU odometry to PX4's NED/FRD messages and back.

    `s` stands for the square root of one half: a real with s * s == 0.5. Orientations are unit quaternions, on which
    the nodes' `normalize` calls change nothing; that the converted ones are unit again is proved. */
module FrameConversion {
  import opened Options
  import opened Quaternion
  import opened RigidBody

  /** nav_msgs/Odometry without header and covariance: world ENU, body FLU. */
  datatype Odometry = Odometry(pose: Pose, twist: Twist)

  datatype PoseFrame = PoseNed | PoseOther(code: int)

  datatype VelocityFrame = VelocityNed | VelocityBodyFrd | VelocityOther(code: int)

  /** px4_msgs/VehicleOdometry without timestamps and variances. */
  datatype VehicleOdometry = VehicleOdometry(
    poseFrame: PoseFrame, velocityFrame: VelocityFrame,
    position: Vec, q: Quat, velocity: Vec, angularVelocity: Vec)

  function EnuToNed(s: real): Quat {
    Quat(s, s, 0.0, 0.0)
  }

  const FLU_TO_FRD := Quat(1.0, 0.0, 0.0, 0.0)

  /** [E, N, U] and [N, E, D] exchange x with y and negate z. */
  function SwapWorld(v: Vec): Vec {
    Vec(v.y, v.x, -v.z)
  }

  /** FLU and FRD negate y and z. */
  function FlipBody(v: Vec): Vec {
    Vec(v.x, -v.y, -v.z)
  }

  function NedFrd(s: real, q: Quat): Quat {
    Mul(Mul(EnuToNed(s), q), FLU_TO_FRD)
  }

  function EnuFlu(s: real, q: Quat): Quat {
    Mul(Mul(Conj(EnuToNed(s)), q), Conj(FLU_TO_FRD))
  }

  /** The MAVLink bridge's conversion; the C++ publisher fills its message with the same values. */
  function EnuFluToNedFrd(s: real, pos: Vec, q: Quat, vel: Vec): (Vec, Quat, Vec) {
    (SwapWorld(pos), NedFrd(s, q), FlipBody(vel))
  }

  function ToPx4(s: real, o: Odometry): VehicleOdometry {
    var (position, q, velocity) := EnuFluToNedFrd(s, o.pose.p, o.pose.q, o.twist.v);
    VehicleOdometry(PoseNed, VelocityBodyFrd, position, q, velocity, FlipBody(o.twist.w))
  }

  /** Stage 1: frames other than the two expected ones are dropped. */
  function FromPx4(s: real, m: VehicleOdometry): Option<Odometry> {
    if !m.poseFrame.PoseNed? || m.velocityFrame.VelocityOther? then
      None
    else
      var q := EnuFlu(s, m.q);
      var v := if m.velocityFrame.VelocityBodyFrd? then FlipBody(m.velocity)
               else Rotate(Conj(q), SwapWorld(m.velocity));
      Some(Odometry(Pose(SwapWorld(m.position), q), Twist(v, FlipBody(m.angularVelocity))))
  }

  // ---- the two frame changes are rotations ----

  lemma FrameQuatsUnit(s: real)
    requires s * s == 0.5
    ensures IsUnit(EnuToNed(s)) && IsUnit(FLU_TO_FRD)
    ensures IsUnit(Conj(EnuToNed(s))) && IsUnit(Conj(FLU_TO_FRD))
  {
  }

  const DIAGONAL := Quat(1.0, 1.0, 0.0, 0.0)

  lemma ScaleScale(k: real, q: Quat)
    ensures Scale(k, Scale(k, q)) == Scale(k * k, q)
  {
  }

  lemma DiagonalTurn(v: Vec)
    ensures Mul(Mul(DIAGONAL, Pure(v)), Conj(DIAGONAL)) == Scale(2.0, Pure(SwapWorld(v)))
  {
    assert Mul(DIAGONAL, Pure(v)) == Quat(v.z, -v.z, v.y - v.x, -v.x - v.y);
  }

  lemma SwapIsRotation(s: real, v: Vec)
    requires s * s == 0.5
    ensures Rotate(EnuToNed(s), v) == SwapWorld(v)
  {
    var d, e := DIAGONAL, EnuToNed(s);
    assert e == Scale(s, d) && Conj(e) == Scale(s, Conj(d));
    hide Mul, Conj, SwapWorld, EnuToNed;
    MulScaled(s, d, Pure(v));
    MulScaled(s, Mul(d, Pure(v)), Conj(e));
    LeftScale(Mul(d, Pure(v)), s, Conj(d));
    ScaleScale(s, Mul(Mul(d, Pure(v)), Conj(d)));
    DiagonalTurn(v);
  }

  lemma FlipIsRotation(v: Vec)
    ensures Rotate(FLU_TO_FRD, v) == FlipBody(v)
  {
    assert Mul(FLU_TO_FRD, Pure(v)) == Quat(0.0, -v.z, v.y, -v.x);
  }

  lemma SwapTwice(v: Vec)
    ensures SwapWorld(SwapWorld(v)) == v && FlipBody(FlipBody(v)) == v
  {
  }

  // ---- orientation ----

  lemma ConvertedUnit(s: real, q: Quat)
    requires s * s == 0.5 && IsUnit(q)
    ensures IsUnit(NedFrd(s, q)) && IsUnit(EnuFlu(s, q))
  {
    FrameQuatsUnit(s);
    hide Mul, Conj, IsUnit, EnuToNed;
    UnitMul(EnuToNed(s), q);
    UnitMul(Mul(EnuToNed(s), q), FLU_TO_FRD);
    UnitMul(Conj(EnuToNed(s)), q);
    UnitMul(Mul(Conj(EnuToNed(s)), q), Conj(FLU_TO_FRD));
  }

  lemma OrientationRoundTrip(s: real, q: Quat)
    requires s * s == 0.5
    ensures EnuFlu(s, NedFrd(s, q)) == q && NedFrd(s, EnuFlu(s, q)) == q
  {
    FrameQuatsUnit(s);
    hide Mul, Conj, IsUnit, EnuToNed;
    var e, f := EnuToNed(s), FLU_TO_FRD;
    MulAssoc(Conj(e), Mul(e, q), f);
    CancelLeft(e, q);
    CancelRight(q, f);
    MulAssoc(e, Mul(Conj(e), q), Conj(f));
  }

  /** Turning the FRD vector by the converted quaternion is the NED image of turning the FLU vector by q. */
  lemma FrameSquare(s: real, q: Quat, v: Vec)
    requires s * s == 0.5
    ensures Rotate(NedFrd(s, q), FlipBody(v)) == SwapWorld(Rotate(q, v))
  {
    hide Rotate, Mul, SwapWorld, FlipBody, EnuToNed;
    var e, f := EnuToNed(s), FLU_TO_FRD;
    RotateMul(Mul(e, q), f, FlipBody(v));
    RotateMul(e, q, v);
    FlipIsRotation(FlipBody(v));
    SwapTwice(v);
    SwapIsRotation(s, Rotate(q, v));
  }

  // ---- whole messages ----

  /** Publishing to PX4 and reading back gives the same odometry, through the body-velocity branch. */
  lemma OutboundInbound(s: real, o: Odometry)
    requires s * s == 0.5 && ValidPose(o.pose)
    ensures ValidPose(Pose(ToPx4(s, o).position, ToPx4(s, o).q))
    ensures FromPx4(s, ToPx4(s, o)) == Some(o)
  {
    hide NedFrd, EnuFlu, SwapWorld, FlipBody, IsUnit, Rotate, Conj;
    ConvertedUnit(s, o.pose.q);
    OrientationRoundTrip(s, o.pose.q);
    SwapTwice(o.pose.p);
    SwapTwice(o.twist.v);
    SwapTwice(o.twist.w);
  }

  /** The message with its velocity turned from NED into the body frame. */
  function BodyVelocity(m: VehicleOdometry): VehicleOdometry {
    if m.velocityFrame.VelocityNed?
    then m.(velocityFrame := VelocityBodyFrd, velocity := Rotate(Conj(m.q), m.velocity))
    else m
  }

  /** Stage 1 gives the same odometry for a NED velocity as for the body velocity of the same motion. */
  lemma BranchesAgree(s: real, m: VehicleOdometry)
    requires s * s == 0.5 && IsUnit(m.q)
    ensures FromPx4(s, m) == FromPx4(s, BodyVelocity(m))
  {
    if m.velocityFrame.VelocityNed? {
      var q := EnuFlu(s, m.q);
      var body := Rotate(Conj(m.q), m.velocity);
      assert Rotate(Conj(q), SwapWorld(m.velocity)) == FlipBody(body) by {
        ConvertedUnit(s, m.q);
        hide NedFrd, EnuFlu, SwapWorld, FlipBody, IsUnit, Rotate, Conj;
        OrientationRoundTrip(s, m.q);
        FrameSquare(s, q, FlipBody(body));
        SwapTwice(body);
        RotateBack(m.q, m.velocity);
        SwapTwice(Rotate(q, FlipBody(body)));
        RotateBack(q, FlipBody(body));
      }
    }
  }

  /** Reading a PX4 message and publishing it again gives the message back, with a body-frame velocity. Exactly the
      messages in other frames are not read. */
  lemma InboundOutbound(s: real, m: VehicleOdometry)
    requires s * s == 0.5 && IsUnit(m.q)
    ensures FromPx4(s, m).Some? <==> m.poseFrame.PoseNed? && !m.velocityFrame.VelocityOther?
    ensures FromPx4(s, m).Some? ==>
              ValidPose(FromPx4(s, m).value.pose) && ToPx4(s, FromPx4(s, m).value) == BodyVelocity(m)
  {
    BranchesAgree(s, m);
    hide NedFrd, EnuFlu, SwapWorld, FlipBody, IsUnit, Rotate, Conj;
    ConvertedUnit(s, m.q);
    OrientationRoundTrip(s, m.q);
    var b := BodyVelocity(m);
    SwapTwice(b.position);
    SwapTwice(b.velocity);
    SwapTwice(b.angularVelocity);
  }

  /** The world velocity PX4 reconstructs is the NED image of the ENU world velocity; the same for the body rate. */
  lemma WorldVelocityPreserved(s: real, o: Odometry)
    requires s * s == 0.5
    ensures Rotate(ToPx4(s, o).q, ToPx4(s, o).velocity) == SwapWorld(Rotate(o.pose.q, o.twist.v))
    ensures Rotate(ToPx4(s, o).q, ToPx4(s, o).angularVelocity) == SwapWorld(Rotate(o.pose.q, o.twist.w))
  {
    hide NedFrd, EnuFlu, SwapWorld, FlipBody, Rotate;
    FrameSquare(s, o.pose.q, o.twist.v);
    FrameSquare(s, o.pose.q, o.twist.w);
  }
}
