/** The publishing half of the two cuVSLAM nodes: the change from optical to ROS axes, the latched origin in its two
    forms, and the covariance block swap. */
module CuvslamLatch {
  import opened Options
  import opened Quaternion
  import opened RigidBody
  import Covariance

  /** The constant matrix of both nodes, applied to a vector: x right, y down, z forward becomes x forward, y left, z
      up. */
  function ToRos(v: Vec): Vec {
    Vec(v.z, -v.x, -v.y)
  }

  /** The quaternion tf2 extracts from that matrix. */
  const Q_ROS_CV := Quat(0.5, -0.5, 0.5, -0.5)

  /** A rotation matrix by columns, and the matrix a quaternion stands for. */
  datatype Matrix = Matrix(cx: Vec, cy: Vec, cz: Vec)

  function MatrixOf(q: Quat): Matrix {
    Matrix(Rotate(q, E_X), Rotate(q, E_Y), Rotate(q, E_Z))
  }

  function RosMatrix(q: Quat): Matrix {
    Matrix(ToRos(Rotate(q, E_X)), ToRos(Rotate(q, E_Y)), ToRos(Rotate(q, E_Z)))
  }

  /** What extracting a quaternion from a matrix promises: a unit quaternion of one sign or the other. */
  predicate Extracted(r: Quat, m: Matrix) {
    IsUnit(r) && MatrixOf(r) == m
  }

  predicate SamePose(a: Pose, b: Pose) {
    a.p == b.p && (a.q == b.q || a.q == Scale(-1.0, b.q))
  }

  // ---- stereo node: the inverse transform is latched ----

  function StereoTransform(est: Pose): Pose {
    Pose(ToRos(est.p), Mul(Q_ROS_CV, est.q))
  }

  function StereoLatch(originInv: Option<Pose>, est: Pose): Pose {
    if originInv.Some? then originInv.value else Inverse(StereoTransform(est))
  }

  /** The transform relative to the latched one; it is kept as a matrix. */
  function StereoAligned(originInv: Option<Pose>, est: Pose): Pose {
    Compose(StereoLatch(originInv, est), StereoTransform(est))
  }

  /** What is published, r being the quaternion extracted from the aligned matrix. */
  function StereoOutput(originInv: Option<Pose>, est: Pose, r: Quat): Pose {
    Pose(StereoAligned(originInv, est).p, r)
  }

  // ---- RGB-D node: position and conjugated orientation are latched ----

  datatype RgbdOrigin = RgbdOrigin(p: Vec, qInv: Quat)

  function RgbdLatch(origin: Option<RgbdOrigin>, est: Pose, r: Quat): RgbdOrigin {
    if origin.Some? then origin.value else RgbdOrigin(ToRos(est.p), Conj(r))
  }

  function RgbdOutput(origin: Option<RgbdOrigin>, est: Pose, r: Quat): Pose {
    var o := RgbdLatch(origin, est, r);
    Pose(Rotate(o.qInv, Sub(ToRos(est.p), o.p)), Mul(o.qInv, r))
  }

  // ---- the axes change ----

  lemma AxesChange(v: Vec)
    ensures IsUnit(Q_ROS_CV) && Rotate(Q_ROS_CV, v) == ToRos(v)
  {
    assert Mul(Q_ROS_CV, Pure(v)) == Quat(
      -0.5 * v.x - 0.5 * v.z - 0.5 * v.y, -0.5 * v.y - 0.5 * v.z + 0.5 * v.x,
      -0.5 * v.z + 0.5 * v.y + 0.5 * v.x, -0.5 * v.x + 0.5 * v.y - 0.5 * v.z);
  }

  const AXES := Pose(ZERO, Q_ROS_CV)

  lemma StereoIsComposition(est: Pose)
    ensures ValidPose(AXES) && StereoTransform(est) == Compose(AXES, est)
  {
    hide Mul, Rotate, IsUnit, ToRos;
    AxesChange(est.p);
    assert Add(ZERO, ToRos(est.p)) == ToRos(est.p);
  }

  // ---- a matrix fixes its quaternion up to sign ----

  lemma Commutes(c: Quat, v: Vec)
    requires IsUnit(c) && Rotate(c, v) == v
    ensures Mul(c, Pure(v)) == Mul(Pure(v), c)
  {
    hide Mul, Rotate, Conj, IsUnit;
    RotatePure(c, v);
    UnitConj(c);
    CancelRight(Mul(c, Pure(v)), Conj(c));
    ConjConj(c);
  }

  lemma SquareOne(w: real)
    requires w * w == 1.0
    ensures w == 1.0 || w == -1.0
  {
    assert (w - 1.0) * (w + 1.0) == 0.0;
  }

  lemma OnlySignsFix(c: Quat)
    requires IsUnit(c) && Rotate(c, E_X) == E_X && Rotate(c, E_Y) == E_Y
    ensures c == ONE || c == Scale(-1.0, ONE)
  {
    hide Rotate;
    Commutes(c, E_X);
    Commutes(c, E_Y);
    assert Mul(c, Pure(E_X)) == Quat(c.w, c.z, -c.y, -c.x) && Mul(Pure(E_X), c) == Quat(c.w, -c.z, c.y, -c.x);
    assert Mul(c, Pure(E_Y)) == Quat(-c.z, c.w, c.x, -c.y) && Mul(Pure(E_Y), c) == Quat(c.z, c.w, -c.x, -c.y);
    assert c.x == 0.0 && c.y == 0.0 && c.z == 0.0;
    SquareOne(c.w);
  }

  lemma SignsOnly(a: Quat, b: Quat)
    requires IsUnit(a) && IsUnit(b) && MatrixOf(a) == MatrixOf(b)
    ensures b == a || b == Scale(-1.0, a)
  {
    hide Mul, Rotate, Conj, IsUnit, Scale;
    var c := Mul(Conj(a), b);
    UnitConj(a);
    UnitMul(Conj(a), b);
    RotateMul(Conj(a), b, E_X);
    RotateMul(Conj(a), b, E_Y);
    RotateBack(a, E_X);
    RotateBack(a, E_Y);
    OnlySignsFix(c);
    CancelLeft(a, b);
    MulOne(a);
    LeftScale(a, -1.0, ONE);
  }

  /** The extracted quaternion is the stereo node's product, up to sign. */
  lemma ExtractedIsProduct(q: Quat, r: Quat)
    requires IsUnit(q) && Extracted(r, RosMatrix(q))
    ensures r == Mul(Q_ROS_CV, q) || r == Scale(-1.0, Mul(Q_ROS_CV, q))
  {
    hide Mul, Rotate, IsUnit, ToRos, Scale;
    var p := Mul(Q_ROS_CV, q);
    AxesChange(Rotate(q, E_X));
    AxesChange(Rotate(q, E_Y));
    AxesChange(Rotate(q, E_Z));
    RotateMul(Q_ROS_CV, q, E_X);
    RotateMul(Q_ROS_CV, q, E_Y);
    RotateMul(Q_ROS_CV, q, E_Z);
    UnitMul(Q_ROS_CV, q);
    SignsOnly(p, r);
  }

  // ---- runs ----

  function StereoOrigin(ests: seq<Pose>): Option<Pose> {
    if ests == [] then None else Some(StereoLatch(StereoOrigin(ests[..|ests| - 1]), ests[|ests| - 1]))
  }

  function RgbdOriginAfter(ests: seq<Pose>, rs: seq<Quat>): Option<RgbdOrigin>
    requires |ests| == |rs|
  {
    if ests == [] then None
    else
      var n := |ests| - 1;
      Some(RgbdLatch(RgbdOriginAfter(ests[..n], rs[..n]), ests[n], rs[n]))
  }

  lemma {:induction false} StereoOriginIsFirst(ests: seq<Pose>)
    requires ests != []
    ensures StereoOrigin(ests) == Some(Inverse(StereoTransform(ests[0])))
  {
    hide Inverse, StereoTransform;
    if |ests| > 1 {
      StereoOriginIsFirst(ests[..|ests| - 1]);
    } else {
      assert ests[..0] == [];
    }
  }

  lemma {:induction false} RgbdOriginIsFirst(ests: seq<Pose>, rs: seq<Quat>)
    requires |ests| == |rs| && ests != []
    ensures RgbdOriginAfter(ests, rs) == Some(RgbdOrigin(ToRos(ests[0].p), Conj(rs[0])))
  {
    hide Conj, ToRos;
    var n := |ests| - 1;
    if n > 0 {
      RgbdOriginIsFirst(ests[..n], rs[..n]);
    }
  }

  /** Over every run the stereo node's aligned transform is the motion since the first estimate; the axes change cancels. */
  lemma StereoAlignsMotion(ests: seq<Pose>, est: Pose)
    requires ValidPose(est) && forall k :: 0 <= k < |ests| ==> ValidPose(ests[k])
    ensures StereoAligned(StereoOrigin(ests), est) == Between((ests + [est])[0], est)
    ensures ValidPose(StereoAligned(StereoOrigin(ests), est))
  {
    var first := (ests + [est])[0];
    hide Compose, Inverse, StereoTransform, ValidPose;
    if ests != [] {
      StereoOriginIsFirst(ests);
    }
    StereoIsComposition(first);
    StereoIsComposition(est);
    BetweenLeftInvariant(AXES, first, est);
    InverseLaws(first);
    ComposeValid(Inverse(first), est);
  }

  /** A quaternion extracted from the matrix of a pose gives the same pose. */
  lemma ExtractedIsSame(p: Pose, r: Quat)
    requires ValidPose(p) && Extracted(r, MatrixOf(p.q))
    ensures SamePose(Pose(p.p, r), p)
  {
    hide IsUnit, MatrixOf, Scale;
    SignsOnly(p.q, r);
  }

  /** Over every run the stereo node publishes the motion since the first estimate, whatever sign its quaternion is extracted
      with. */
  lemma StereoPublishesMotion(ests: seq<Pose>, est: Pose, r: Quat)
    requires ValidPose(est) && forall k :: 0 <= k < |ests| ==> ValidPose(ests[k])
    requires Extracted(r, MatrixOf(StereoAligned(StereoOrigin(ests), est).q))
    ensures SamePose(StereoOutput(StereoOrigin(ests), est, r), Between((ests + [est])[0], est))
  {
    hide Compose, Inverse, ValidPose, MatrixOf, Scale, StereoAligned, IsUnit;
    StereoAlignsMotion(ests, est);
    ExtractedIsSame(StereoAligned(StereoOrigin(ests), est), r);
  }

  lemma SamePoseBoth(a: Pose, b: Pose, m: Pose)
    requires SamePose(a, m) && SamePose(b, m)
    ensures SamePose(a, b)
  {
    hide Scale;
    SignTwice(m.q);
  }

  /** The RGB-D node publishes the same pose as the stereo node: the same position, and the same rotation up to the sign
      of the quaternion. */
  lemma RgbdPublishesSame(ests: seq<Pose>, rs: seq<Quat>, est: Pose, r: Quat, stereo: Quat)
    requires |ests| == |rs| && ValidPose(est) && Extracted(r, RosMatrix(est.q))
    requires forall k :: 0 <= k < |ests| ==> ValidPose(ests[k]) && Extracted(rs[k], RosMatrix(ests[k].q))
    requires Extracted(stereo, MatrixOf(StereoAligned(StereoOrigin(ests), est).q))
    ensures SamePose(RgbdOutput(RgbdOriginAfter(ests, rs), est, r), StereoOutput(StereoOrigin(ests), est, stereo))
  {
    hide Compose, Inverse, ValidPose, MatrixOf, Scale, StereoAligned, IsUnit, RgbdOutput, RosMatrix, SamePose;
    StereoAlignsMotion(ests, est);
    var aligned := StereoAligned(StereoOrigin(ests), est);
    ExtractedIsSame(aligned, stereo);
    RgbdAlignsMotion(ests, rs, est, r);
    SamePoseBoth(RgbdOutput(RgbdOriginAfter(ests, rs), est, r), StereoOutput(StereoOrigin(ests), est, stereo), aligned);
  }

  lemma RgbdAlignsMotion(ests: seq<Pose>, rs: seq<Quat>, est: Pose, r: Quat)
    requires |ests| == |rs| && ValidPose(est) && Extracted(r, RosMatrix(est.q))
    requires forall k :: 0 <= k < |ests| ==> ValidPose(ests[k]) && Extracted(rs[k], RosMatrix(ests[k].q))
    ensures SamePose(RgbdOutput(RgbdOriginAfter(ests, rs), est, r), StereoAligned(StereoOrigin(ests), est))
  {
    var first, r0 := (ests + [est])[0], (rs + [r])[0];
    hide Mul, Rotate, Conj, Add, Neg, IsUnit, ToRos, Scale, RosMatrix, MatrixOf, Inverse;
    if ests != [] {
      StereoOriginIsFirst(ests);
      RgbdOriginIsFirst(ests, rs);
    }
    assert Extracted(r0, RosMatrix(first.q)) && IsUnit(first.q);
    ExtractedIsProduct(first.q, r0);
    ExtractedIsProduct(est.q, r);
    LatchFormsAgree(StereoTransform(first), StereoTransform(est), r0, r);
  }

  /** Subtracting and turning back is composing with the inverse, whatever signs were extracted. */
  lemma LatchFormsAgree(a: Pose, b: Pose, ra: Quat, rb: Quat)
    requires ra == a.q || ra == Scale(-1.0, a.q)
    requires rb == b.q || rb == Scale(-1.0, b.q)
    ensures SamePose(Pose(Rotate(Conj(ra), Sub(b.p, a.p)), Mul(Conj(ra), rb)), Compose(Inverse(a), b))
  {
    hide Mul, Rotate, Add, Neg, Conj, Scale;
    var c := Conj(a.q);
    ConjScale(a.q);
    RotateSign(c, Sub(b.p, a.p));
    RotateAdd(c, b.p, Neg(a.p));
    RotateNeg(c, a.p);
    AddLaws(Rotate(c, b.p), Neg(Rotate(c, a.p)), ZERO);
    MulScaled(-1.0, c, rb);
    LeftScale(c, -1.0, b.q);
    SignTwice(Mul(c, b.q));
  }

  lemma ConjScale(q: Quat)
    ensures Conj(Scale(-1.0, q)) == Scale(-1.0, Conj(q))
  {
  }

  lemma SignTwice(q: Quat)
    ensures Scale(-1.0, Scale(-1.0, q)) == q
  {
  }

  // ---- covariance ----

  /** Exchanges the rotation and position halves of an index of a 6-vector. */
  function SwapHalf(i: nat): nat
    requires i < 6
  {
    if i < 3 then i + 3 else i - 3
  }

  /** The covariance with its rotation and position blocks exchanged: entry (i, j) is the source's entry for the
      exchanged axes. */
  function Swapped(cov: seq<real>): (out: seq<real>)
    requires |cov| == 36
    ensures |out| == 36
  {
    seq(36, k requires 0 <= k < 36 => cov[SwapHalf(k / 6) * 6 + SwapHalf(k % 6)])
  }

  lemma SwappedEntry(cov: seq<real>, i: nat, j: nat)
    requires |cov| == 36 && i < 6 && j < 6
    ensures Swapped(cov)[i * 6 + j] == cov[SwapHalf(i) * 6 + SwapHalf(j)]
  {
    assert (i * 6 + j) / 6 == i && (i * 6 + j) % 6 == j;
  }

  /** Swapping twice gives the covariance back, and a symmetric covariance stays symmetric. */
  lemma SwapInvolution(cov: seq<real>)
    requires |cov| == 36
    ensures Swapped(Swapped(cov)) == cov
    ensures Covariance.Symmetric(cov) ==> Covariance.Symmetric(Swapped(cov))
  {
    forall k | 0 <= k < 36 ensures Swapped(Swapped(cov))[k] == cov[k] {
      var i, j := k / 6, k % 6;
      SwappedEntry(Swapped(cov), i, j);
      SwappedEntry(cov, SwapHalf(i), SwapHalf(j));
    }
    if Covariance.Symmetric(cov) {
      forall i, j | 0 <= i < 6 && 0 <= j < 6 ensures Covariance.SameAcross(Swapped(cov), i, j) {
        assert Covariance.SameAcross(cov, SwapHalf(i), SwapHalf(j));
        SwappedEntry(cov, i, j);
        SwappedEntry(cov, j, i);
      }
    }
  }

  lemma BlocksSwapped(cov: seq<real>)
    requires |cov| == 36
    ensures Covariance.Block(Swapped(cov), 0, 0) == Covariance.Block(cov, 3, 3)
    ensures Covariance.Block(Swapped(cov), 0, 3) == Covariance.Block(cov, 3, 0)
    ensures Covariance.Block(Swapped(cov), 3, 0) == Covariance.Block(cov, 0, 3)
    ensures Covariance.Block(Swapped(cov), 3, 3) == Covariance.Block(cov, 0, 0)
  {
  }

  /** The rotation block of the source becomes the position block and the other way round: the covariance of two directions is
      that of the directions with their two parts exchanged. */
  lemma PartsExchanged(cov: seq<real>, u: Vec, u': Vec, v: Vec, v': Vec)
    requires |cov| == 36
    ensures Covariance.Form(Swapped(cov), u, u', v, v') == Covariance.Form(cov, u', u, v', v)
  {
    BlocksSwapped(cov);
    hide Swapped, Covariance.Block, Covariance.Inner, Covariance.Apply;
  }

  method SwapCovariance(cov: array<real>, out: array<real>)
    requires cov.Length == 36 && out.Length == 36 && cov != out
    modifies out
    ensures out[..] == Swapped(cov[..])
  {
    for i := 0 to 6
      invariant forall k :: 0 <= k < i * 6 ==> out[k] == Swapped(cov[..])[k]
    {
      for j := 0 to 6
        invariant forall k :: 0 <= k < i * 6 + j ==> out[k] == Swapped(cov[..])[k]
      {
        var srcI := if i < 3 then i + 3 else i - 3;
        var srcJ := if j < 3 then j + 3 else j - 3;
        SwappedEntry(cov[..], i, j);
        out[i * 6 + j] := cov[srcI * 6 + srcJ];
      }
    }
  }

  // ---- the nodes ----

  class StereoPublisher {
    var originInv: Option<Pose>

    constructor ()
      ensures originInv == None
    {
      originInv := None;
    }

    /** `r` is what the matrix library extracts from the aligned matrix. */
    method PublishPose(est: Pose, r: Quat) returns (out: Pose)
      modifies this
      ensures out == StereoOutput(old(originInv), est, r)
      ensures originInv == Some(StereoLatch(old(originInv), est))
    {
      var current := Pose(ToRos(est.p), Mul(Q_ROS_CV, est.q));
      if originInv.None? {
        originInv := Some(Inverse(current));
      }
      var aligned := Compose(originInv.value, current);
      out := Pose(aligned.p, r);
    }
  }

  class RgbdPublisher {
    var origin: Option<RgbdOrigin>

    constructor ()
      ensures origin == None
    {
      origin := None;
    }

    /** `r` is what the matrix library extracts for this estimate. */
    method PublishPose(est: Pose, r: Quat) returns (out: Pose)
      modifies this
      ensures out == RgbdOutput(old(origin), est, r)
      ensures origin == Some(RgbdLatch(old(origin), est, r))
    {
      var pRos := ToRos(est.p);
      if origin.None? {
        origin := Some(RgbdOrigin(pRos, Conj(r)));
      }
      var alignedP := Rotate(origin.value.qInv, Sub(pRos, origin.value.p));
      var alignedQ := Mul(origin.value.qInv, r);
      out := Pose(alignedP, alignedQ);
    }
  }
}
