/** Rigid-body poses and twists, and the group laws that the odometry nodes rely on. */
module RigidBody {
  import opened Quaternion

  /** A frame's position and orientation in a parent frame. */
  datatype Pose = Pose(p: Vec, q: Quat)

  /** Linear and angular velocity of a frame, expressed in that frame. */
  datatype Twist = Twist(v: Vec, w: Vec)

  const IDENTITY := Pose(ZERO, ONE)

  predicate ValidPose(a: Pose) {
    IsUnit(a.q)
  }

  function Compose(a: Pose, b: Pose): Pose {
    Pose(Add(a.p, Rotate(a.q, b.p)), Mul(a.q, b.q))
  }

  function Inverse(a: Pose): Pose {
    Pose(Neg(Rotate(Conj(a.q), a.p)), Conj(a.q))
  }

  /** The motion from a to b, seen from a. */
  function Between(a: Pose, b: Pose): Pose {
    Compose(Inverse(a), b)
  }

  // ---- group laws ----

  lemma AddLaws(a: Vec, b: Vec, c: Vec)
    ensures Add(Add(a, b), c) == Add(a, Add(b, c))
    ensures Add(a, ZERO) == a && Add(ZERO, a) == a
    ensures Add(a, Neg(a)) == ZERO && Add(Neg(a), a) == ZERO
    ensures Add(a, b) == Add(b, a)
    ensures Neg(Neg(a)) == a && Neg(ZERO) == ZERO
    ensures Neg(Add(a, b)) == Add(Neg(a), Neg(b))
  {
  }

  lemma ComposeValid(a: Pose, b: Pose)
    requires ValidPose(a) && ValidPose(b)
    ensures ValidPose(Compose(a, b))
  {
    hide Mul, IsUnit;
    UnitMul(a.q, b.q);
  }

  lemma ComposeAssoc(a: Pose, b: Pose, c: Pose)
    ensures Compose(Compose(a, b), c) == Compose(a, Compose(b, c))
  {
    hide Mul, Rotate, Add;
    MulAssoc(a.q, b.q, c.q);
    RotateMul(a.q, b.q, c.p);
    RotateAdd(a.q, b.p, Rotate(b.q, c.p));
    AddLaws(a.p, Rotate(a.q, b.p), Rotate(a.q, Rotate(b.q, c.p)));
  }

  lemma ComposeIdentity(a: Pose)
    ensures Compose(a, IDENTITY) == a && Compose(IDENTITY, a) == a
  {
    hide Mul, Rotate, Add;
    MulOne(a.q);
    RotateZero(a.q);
    RotateOne(a.p);
    AddLaws(a.p, ZERO, ZERO);
  }

  lemma InverseLaws(a: Pose)
    requires ValidPose(a)
    ensures ValidPose(Inverse(a))
    ensures Compose(a, Inverse(a)) == IDENTITY && Compose(Inverse(a), a) == IDENTITY
  {
    hide Mul, Rotate, Add, Neg, Conj, IsUnit;
    UnitConj(a.q);
    RotateBack(a.q, a.p);
    RotateNeg(a.q, Rotate(Conj(a.q), a.p));
    AddLaws(a.p, ZERO, ZERO);
    AddLaws(Rotate(Conj(a.q), a.p), ZERO, ZERO);
  }

  lemma InverseUnique(a: Pose, b: Pose)
    requires ValidPose(a) && Compose(a, b) == IDENTITY
    ensures b == Inverse(a)
  {
    hide *;
    InverseLaws(a);
    ComposeAssoc(Inverse(a), a, b);
    ComposeIdentity(b);
    ComposeIdentity(Inverse(a));
  }

  lemma InverseCompose(a: Pose, b: Pose)
    requires ValidPose(a) && ValidPose(b)
    ensures Inverse(Compose(a, b)) == Compose(Inverse(b), Inverse(a))
  {
    hide *;
    InverseLaws(a);
    InverseLaws(b);
    ComposeValid(a, b);
    var c := Compose(Inverse(b), Inverse(a));
    ComposeAssoc(a, b, c);
    ComposeAssoc(b, Inverse(b), Inverse(a));
    ComposeIdentity(Inverse(a));
    InverseUnique(Compose(a, b), c);
  }

  lemma InverseInverse(a: Pose)
    requires ValidPose(a)
    ensures Inverse(Inverse(a)) == a
  {
    hide *;
    InverseLaws(a);
    InverseUnique(Inverse(a), a);
  }

  /** A common change of world frame is invisible in relative motions. */
  lemma BetweenLeftInvariant(l: Pose, a: Pose, b: Pose)
    requires ValidPose(l) && ValidPose(a)
    ensures Between(Compose(l, a), Compose(l, b)) == Between(a, b)
  {
    hide Compose, Inverse, ValidPose;
    InverseCompose(l, a);
    InverseLaws(l);
    ComposeAssoc(Inverse(a), Inverse(l), Compose(l, b));
    ComposeAssoc(Inverse(l), l, b);
    ComposeIdentity(b);
  }

  /** Moving both ends of a motion by the same mount x conjugates the motion by x. */
  lemma BetweenMounted(a: Pose, b: Pose, x: Pose)
    requires ValidPose(a) && ValidPose(x)
    ensures Between(Compose(a, x), Compose(b, x)) == Compose(Compose(Inverse(x), Between(a, b)), x)
  {
    hide Compose, Inverse, ValidPose;
    InverseCompose(a, x);
    ComposeAssoc(Inverse(x), Inverse(a), Compose(b, x));
    ComposeAssoc(Inverse(a), b, x);
    ComposeAssoc(Inverse(x), Compose(Inverse(a), b), x);
  }

  lemma ComposeCancelLeft(l: Pose, a: Pose, b: Pose)
    requires ValidPose(l) && Compose(l, a) == Compose(l, b)
    ensures a == b
  {
    hide *;
    InverseLaws(l);
    ComposeAssoc(Inverse(l), l, a);
    ComposeAssoc(Inverse(l), l, b);
    ComposeIdentity(a);
    ComposeIdentity(b);
  }
}
