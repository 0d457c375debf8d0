/** Moving odometry from a sensor frame C to a base frame B rigidly mounted at x in C, as stage 2 of the PX4 odometry
    node and the odometry relay do it. */
module Reexpression {
  import opened Quaternion
  import opened RigidBody
  import opened FrameConversion

  function MoveTwist(t: Twist, x: Pose): Twist {
    Twist(Rotate(Conj(x.q), Add(t.v, Cross(t.w, x.p))), Rotate(Conj(x.q), t.w))
  }

  function Reexpress(o: Odometry, x: Pose): Odometry {
    Odometry(Compose(o.pose, x), MoveTwist(o.twist, x))
  }

  /** A transform remembered with the sensor frame it was looked up for. */
  datatype Cached = Cached(sensorFrame: string, mount: Pose)

  // ---- vector facts ----

  lemma ReexpressPose(o: Odometry, x: Pose)
    ensures Reexpress(o, x).pose == Compose(o.pose, x)
    ensures Reexpress(o, x).twist == MoveTwist(o.twist, x)
  {
  }

  lemma CrossAdd(w: Vec, a: Vec, b: Vec)
    ensures Cross(w, Add(a, b)) == Add(Cross(w, a), Cross(w, b))
    ensures Cross(w, ZERO) == ZERO
  {
    assert w.y * (a.z + b.z) == w.y * a.z + w.y * b.z && w.z * (a.y + b.y) == w.z * a.y + w.z * b.y;
    assert w.z * (a.x + b.x) == w.z * a.x + w.z * b.x && w.x * (a.z + b.z) == w.x * a.z + w.x * b.z;
    assert w.x * (a.y + b.y) == w.x * a.y + w.x * b.y && w.y * (a.x + b.x) == w.y * a.x + w.y * b.x;
  }

  // ---- composition ----

  lemma MoveTwistCompose(t: Twist, x: Pose, y: Pose)
    requires ValidPose(x) && ValidPose(y)
    ensures MoveTwist(MoveTwist(t, x), y) == MoveTwist(t, Compose(x, y))
  {
    UnitConj(x.q);
    hide Rotate, Mul, Conj, Cross, Add, IsUnit;
    var cx, cy := Conj(x.q), Conj(y.q);
    ConjMul(x.q, y.q);
    RotateMul(cy, cx, t.w);
    var arm := Rotate(x.q, y.p);
    CrossAdd(t.w, x.p, arm);
    RotateCross(cx, t.w, arm);
    RotateBack(x.q, y.p);
    AddLaws(t.v, Cross(t.w, x.p), Cross(t.w, arm));
    RotateAdd(cx, Add(t.v, Cross(t.w, x.p)), Cross(t.w, arm));
    RotateMul(cy, cx, Add(t.v, Cross(t.w, Add(x.p, arm))));
  }

  /** Moving by x and then by y is moving once by their composition. */
  lemma ReexpressCompose(o: Odometry, x: Pose, y: Pose)
    requires ValidPose(x) && ValidPose(y)
    ensures Reexpress(Reexpress(o, x), y) == Reexpress(o, Compose(x, y))
  {
    hide Compose, MoveTwist, ValidPose;
    ComposeAssoc(o.pose, x, y);
    MoveTwistCompose(o.twist, x, y);
  }

  /** The fallback for a missing transform leaves the odometry as it is. */
  lemma ReexpressIdentity(o: Odometry)
    ensures Reexpress(o, IDENTITY) == o
  {
    ComposeIdentity(o.pose);
    hide Rotate, Compose, Add, Cross;
    CrossAdd(o.twist.w, ZERO, ZERO);
    AddLaws(o.twist.v, ZERO, ZERO);
    ConjOne();
    hide Conj;
    RotateOne(o.twist.v);
    RotateOne(o.twist.w);
  }

  /** Moving to the base frame and back restores pose, linear velocity and angular velocity. */
  lemma ReexpressBack(o: Odometry, x: Pose)
    requires ValidPose(x)
    ensures Reexpress(Reexpress(o, x), Inverse(x)) == o
  {
    hide *;
    InverseLaws(x);
    ReexpressCompose(o, x, Inverse(x));
    ReexpressIdentity(o);
  }

  // ---- what the result means in the world frame ----

  /** Velocity and body rate turned into world coordinates. */
  function WorldTwist(o: Odometry): Twist {
    Twist(Rotate(o.pose.q, o.twist.v), Rotate(o.pose.q, o.twist.w))
  }

  /** The rigid-body law: in world coordinates the base moves with the sensor's velocity plus the angular velocity
      crossed with the arm from sensor to base, and turns with the same angular velocity. */
  lemma RigidBodyLaw(o: Odometry, x: Pose)
    requires ValidPose(o.pose) && ValidPose(x)
    ensures var b := Reexpress(o, x);
            && WorldTwist(b).w == WorldTwist(o).w
            && WorldTwist(b).v == Add(WorldTwist(o).v, Cross(WorldTwist(o).w, Sub(b.pose.p, o.pose.p)))
  {
    hide Rotate, Mul, Conj, Cross, Add, Neg, IsUnit;
    var q, t := o.pose.q, o.twist;
    var u := Add(t.v, Cross(t.w, x.p));
    RotateMul(q, x.q, Rotate(Conj(x.q), u));
    RotateMul(q, x.q, Rotate(Conj(x.q), t.w));
    RotateBack(x.q, u);
    RotateBack(x.q, t.w);
    RotateAdd(q, t.v, Cross(t.w, x.p));
    RotateCross(q, t.w, x.p);
    var arm := Rotate(q, x.p);
    AddLaws(o.pose.p, arm, Neg(o.pose.p));
    AddLaws(arm, o.pose.p, Neg(o.pose.p));
    AddLaws(o.pose.p, Neg(o.pose.p), arm);
  }
}
