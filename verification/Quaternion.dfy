/** Vectors and quaternions over the reals, with the component formulas of the ROS/PX4 bridge nodes.

    Products are polynomials of degree two in eight reals. Only the lemmas at the top of the module look at
    components; everything else is proved by rewriting with them, with the function bodies hidden. */
module Quaternion {
  datatype Vec = Vec(x: real, y: real, z: real)

  datatype Quat = Quat(x: real, y: real, z: real, w: real)

  const ZERO := Vec(0.0, 0.0, 0.0)
  const ONE := Quat(0.0, 0.0, 0.0, 1.0)
  const E_X := Vec(1.0, 0.0, 0.0)
  const E_Y := Vec(0.0, 1.0, 0.0)
  const E_Z := Vec(0.0, 0.0, 1.0)

  // ---- vectors ----

  function Add(a: Vec, b: Vec): Vec {
    Vec(a.x + b.x, a.y + b.y, a.z + b.z)
  }

  function Neg(a: Vec): Vec {
    Vec(-a.x, -a.y, -a.z)
  }

  function Sub(a: Vec, b: Vec): Vec {
    Add(a, Neg(b))
  }

  function Cross(a: Vec, b: Vec): Vec {
    Vec(a.y * b.z - a.z * b.y, a.z * b.x - a.x * b.z, a.x * b.y - a.y * b.x)
  }

  // ---- quaternions ----

  function Mul(a: Quat, b: Quat): Quat {
    Quat(a.w * b.x + a.x * b.w + a.y * b.z - a.z * b.y,
         a.w * b.y - a.x * b.z + a.y * b.w + a.z * b.x,
         a.w * b.z + a.x * b.y - a.y * b.x + a.z * b.w,
         a.w * b.w - a.x * b.x - a.y * b.y - a.z * b.z)
  }

  function Conj(q: Quat): Quat {
    Quat(-q.x, -q.y, -q.z, q.w)
  }

  function Norm2(q: Quat): real {
    q.x * q.x + q.y * q.y + q.z * q.z + q.w * q.w
  }

  predicate IsUnit(q: Quat) {
    Norm2(q) == 1.0
  }

  function Pure(v: Vec): Quat {
    Quat(v.x, v.y, v.z, 0.0)
  }

  function VecPart(q: Quat): Vec {
    Vec(q.x, q.y, q.z)
  }

  /** The sandwich product q (v, 0) conj(q). */
  function Rotate(q: Quat, v: Vec): Vec {
    VecPart(Mul(Mul(q, Pure(v)), Conj(q)))
  }

  // ---- linear structure, used in proofs ----

  function Scale(k: real, q: Quat): Quat {
    Quat(k * q.x, k * q.y, k * q.z, k * q.w)
  }

  function Plus(a: Quat, b: Quat): Quat {
    Quat(a.x + b.x, a.y + b.y, a.z + b.z, a.w + b.w)
  }

  function TurnI(q: Quat): Quat {
    Quat(q.w, -q.z, q.y, -q.x)
  }

  function TurnJ(q: Quat): Quat {
    Quat(q.z, q.w, -q.x, -q.y)
  }

  function TurnK(q: Quat): Quat {
    Quat(-q.y, q.x, q.w, -q.z)
  }

  /** The combination of four quaternions with the components of `a` as coefficients. */
  function Combine(a: Quat, p: Quat, i: Quat, j: Quat, k: Quat): Quat {
    Plus(Plus(Scale(a.w, p), Scale(a.x, i)), Plus(Scale(a.y, j), Scale(a.z, k)))
  }

  /** A bilinear form in scalars: its laws are polynomial identities with nothing to look up. */
  function Dot(a: real, b: real, c: real, d: real, p: real, q: real, r: real, s: real): real {
    a * p + b * q + c * r + d * s
  }

  lemma DotPlus(a: Quat, b: Quat, p: real, q: real, r: real, s: real)
    ensures Dot(a.w + b.w, a.x + b.x, a.y + b.y, a.z + b.z, p, q, r, s)
         == Dot(a.w, a.x, a.y, a.z, p, q, r, s) + Dot(b.w, b.x, b.y, b.z, p, q, r, s)
  {
  }

  lemma DotScale(k: real, a: Quat, b: Quat, p: real, q: real, r: real, s: real, m: real)
    requires b == Scale(k, a) && m == Dot(a.w, a.x, a.y, a.z, p, q, r, s)
    ensures Dot(b.w, b.x, b.y, b.z, p, q, r, s) == k * m
  {
    assert b.w * p == k * (a.w * p) && b.x * q == k * (a.x * q);
    assert b.y * r == k * (a.y * r) && b.z * s == k * (a.z * s);
  }

  lemma MulDots(a: Quat, b: Quat)
    ensures Mul(a, b).x == Dot(a.w, a.x, a.y, a.z, b.x, b.w, b.z, -b.y)
    ensures Mul(a, b).y == Dot(a.w, a.x, a.y, a.z, b.y, -b.z, b.w, b.x)
    ensures Mul(a, b).z == Dot(a.w, a.x, a.y, a.z, b.z, b.y, -b.x, b.w)
    ensures Mul(a, b).w == Dot(a.w, a.x, a.y, a.z, b.w, -b.x, -b.y, -b.z)
  {
  }

  lemma DotTurnI(w: real, x: real, y: real, z: real, p: real, q: real, r: real, s: real)
    ensures Dot(-x, w, -z, y, p, q, r, s) == Dot(w, x, y, z, q, -p, s, -r)
  {
  }

  lemma DotTurnJ(w: real, x: real, y: real, z: real, p: real, q: real, r: real, s: real)
    ensures Dot(-y, z, w, -x, p, q, r, s) == Dot(w, x, y, z, r, -s, -p, q)
  {
  }

  lemma DotTurnK(w: real, x: real, y: real, z: real, p: real, q: real, r: real, s: real)
    ensures Dot(-z, -y, x, w, p, q, r, s) == Dot(w, x, y, z, s, r, -q, -p)
  {
  }

  lemma DotReverse(a: Quat, b: Quat)
    ensures Dot(b.w, -b.x, -b.y, -b.z, -a.x, a.w, -a.z, a.y) == -Dot(a.w, a.x, a.y, a.z, b.x, b.w, b.z, -b.y)
    ensures Dot(b.w, -b.x, -b.y, -b.z, -a.y, a.z, a.w, -a.x) == -Dot(a.w, a.x, a.y, a.z, b.y, -b.z, b.w, b.x)
    ensures Dot(b.w, -b.x, -b.y, -b.z, -a.z, -a.y, a.x, a.w) == -Dot(a.w, a.x, a.y, a.z, b.z, b.y, -b.x, b.w)
    ensures Dot(b.w, -b.x, -b.y, -b.z, a.w, a.x, a.y, a.z) == Dot(a.w, a.x, a.y, a.z, b.w, -b.x, -b.y, -b.z)
  {
  }

  lemma DotFlip(w: real, x: real, y: real, z: real, p: real, q: real, r: real, s: real)
    ensures Dot(w, x, y, z, -p, -q, -r, -s) == -Dot(w, x, y, z, p, q, r, s)
  {
  }

  lemma Decompose(a: Quat, b: Quat)
    ensures Mul(a, b) == Combine(a, b, TurnI(b), TurnJ(b), TurnK(b))
  {
  }

  lemma MulScaled(k: real, p: Quat, c: Quat)
    ensures Mul(Scale(k, p), c) == Scale(k, Mul(p, c))
  {
    hide Mul, Dot;
    MulDots(Scale(k, p), c);
    MulDots(p, c);
    DotScale(k, p, Scale(k, p), c.x, c.w, c.z, -c.y, Mul(p, c).x);
    DotScale(k, p, Scale(k, p), c.y, -c.z, c.w, c.x, Mul(p, c).y);
    DotScale(k, p, Scale(k, p), c.z, c.y, -c.x, c.w, Mul(p, c).z);
    DotScale(k, p, Scale(k, p), c.w, -c.x, -c.y, -c.z, Mul(p, c).w);
  }

  lemma MulPlus(p: Quat, q: Quat, c: Quat)
    ensures Mul(Plus(p, q), c) == Plus(Mul(p, c), Mul(q, c))
  {
    hide Mul, Dot;
    MulDots(Plus(p, q), c);
    MulDots(p, c);
    MulDots(q, c);
    DotPlus(p, q, c.x, c.w, c.z, -c.y);
    DotPlus(p, q, c.y, -c.z, c.w, c.x);
    DotPlus(p, q, c.z, c.y, -c.x, c.w);
    DotPlus(p, q, c.w, -c.x, -c.y, -c.z);
  }

  lemma MulTurnI(p: Quat, c: Quat)
    ensures Mul(TurnI(p), c) == TurnI(Mul(p, c))
  {
    hide Mul, Dot;
    MulDots(TurnI(p), c);
    MulDots(p, c);
    DotTurnI(p.w, p.x, p.y, p.z, c.x, c.w, c.z, -c.y);
    DotTurnI(p.w, p.x, p.y, p.z, c.y, -c.z, c.w, c.x);
    DotTurnI(p.w, p.x, p.y, p.z, c.z, c.y, -c.x, c.w);
    DotTurnI(p.w, p.x, p.y, p.z, c.w, -c.x, -c.y, -c.z);
    DotFlip(p.w, p.x, p.y, p.z, c.x, c.w, c.z, -c.y);
    DotFlip(p.w, p.x, p.y, p.z, c.z, c.y, -c.x, c.w);
  }

  lemma MulTurnJ(p: Quat, c: Quat)
    ensures Mul(TurnJ(p), c) == TurnJ(Mul(p, c))
  {
    hide Mul, Dot;
    MulDots(TurnJ(p), c);
    MulDots(p, c);
    DotTurnJ(p.w, p.x, p.y, p.z, c.x, c.w, c.z, -c.y);
    DotTurnJ(p.w, p.x, p.y, p.z, c.y, -c.z, c.w, c.x);
    DotTurnJ(p.w, p.x, p.y, p.z, c.z, c.y, -c.x, c.w);
    DotTurnJ(p.w, p.x, p.y, p.z, c.w, -c.x, -c.y, -c.z);
    DotFlip(p.w, p.x, p.y, p.z, c.x, c.w, c.z, -c.y);
    DotFlip(p.w, p.x, p.y, p.z, c.y, -c.z, c.w, c.x);
  }

  lemma MulTurnK(p: Quat, c: Quat)
    ensures Mul(TurnK(p), c) == TurnK(Mul(p, c))
  {
    hide Mul, Dot;
    MulDots(TurnK(p), c);
    MulDots(p, c);
    DotTurnK(p.w, p.x, p.y, p.z, c.x, c.w, c.z, -c.y);
    DotTurnK(p.w, p.x, p.y, p.z, c.y, -c.z, c.w, c.x);
    DotTurnK(p.w, p.x, p.y, p.z, c.z, c.y, -c.x, c.w);
    DotTurnK(p.w, p.x, p.y, p.z, c.w, -c.x, -c.y, -c.z);
    DotFlip(p.w, p.x, p.y, p.z, c.y, -c.z, c.w, c.x);
    DotFlip(p.w, p.x, p.y, p.z, c.z, c.y, -c.x, c.w);
  }

  lemma MulCombine(a: Quat, p: Quat, i: Quat, j: Quat, k: Quat, c: Quat)
    ensures Mul(Combine(a, p, i, j, k), c) == Combine(a, Mul(p, c), Mul(i, c), Mul(j, c), Mul(k, c))
  {
    hide Mul, Scale, Plus;
    var p', i', j', k' := Scale(a.w, p), Scale(a.x, i), Scale(a.y, j), Scale(a.z, k);
    MulPlus(Plus(p', i'), Plus(j', k'), c);
    MulPlus(p', i', c);
    MulPlus(j', k', c);
    MulScaled(a.w, p, c);
    MulScaled(a.x, i, c);
    MulScaled(a.y, j, c);
    MulScaled(a.z, k, c);
  }

  // ---- the algebra ----

  lemma MulAssoc(a: Quat, b: Quat, c: Quat)
    ensures Mul(Mul(a, b), c) == Mul(a, Mul(b, c))
  {
    hide *;
    Decompose(a, b);
    Decompose(a, Mul(b, c));
    MulTurnI(b, c);
    MulTurnJ(b, c);
    MulTurnK(b, c);
    MulCombine(a, b, TurnI(b), TurnJ(b), TurnK(b), c);
  }

  lemma MulOne(q: Quat)
    ensures Mul(q, ONE) == q && Mul(ONE, q) == q
  {
  }

  lemma ConjMul(a: Quat, b: Quat)
    ensures Conj(Mul(a, b)) == Mul(Conj(b), Conj(a))
  {
    hide Mul, Dot;
    MulDots(a, b);
    MulDots(Conj(b), Conj(a));
    DotReverse(a, b);
  }

  lemma ConjOne()
    ensures Conj(ONE) == ONE
  {
  }

  lemma ConjConj(q: Quat)
    ensures Conj(Conj(q)) == q
  {
  }

  lemma MulConj(q: Quat)
    ensures Mul(q, Conj(q)) == Scale(Norm2(q), ONE)
    ensures Mul(Conj(q), q) == Scale(Norm2(q), ONE)
  {
  }

  lemma UnitConj(q: Quat)
    requires IsUnit(q)
    ensures IsUnit(Conj(q))
    ensures Mul(q, Conj(q)) == ONE && Mul(Conj(q), q) == ONE
  {
    MulConj(q);
  }

  lemma CancelLeft(a: Quat, b: Quat)
    requires IsUnit(a)
    ensures Mul(Conj(a), Mul(a, b)) == b && Mul(a, Mul(Conj(a), b)) == b
  {
    hide *;
    MulAssoc(Conj(a), a, b);
    MulAssoc(a, Conj(a), b);
    UnitConj(a);
    MulOne(b);
  }

  lemma CancelRight(a: Quat, b: Quat)
    requires IsUnit(b)
    ensures Mul(Mul(a, b), Conj(b)) == a && Mul(Mul(a, Conj(b)), b) == a
  {
    hide *;
    MulAssoc(a, Conj(b), b);
    MulAssoc(a, b, Conj(b));
    UnitConj(b);
    MulOne(a);
  }

  /** Products of unit quaternions are unit, so renormalising one changes nothing. */
  lemma UnitMul(a: Quat, b: Quat)
    requires IsUnit(a) && IsUnit(b)
    ensures IsUnit(Mul(a, b))
  {
    hide Mul, Conj, Norm2;
    var c := Mul(a, b);
    MulConj(c);
    ConjMul(a, b);
    MulAssoc(c, Conj(b), Conj(a));
    CancelRight(a, b);
    MulConj(a);
    assert Scale(Norm2(c), ONE).w == Scale(Norm2(a), ONE).w;
  }

  lemma LeftPlus(c: Quat, p: Quat, q: Quat)
    ensures Mul(c, Plus(p, q)) == Plus(Mul(c, p), Mul(c, q))
  {
    hide Mul;
    ConjMul(c, p);
    ConjMul(c, q);
    ConjMul(c, Plus(p, q));
    MulPlus(Conj(p), Conj(q), Conj(c));
    ConjConj(Mul(c, Plus(p, q)));
  }

  lemma LeftScale(c: Quat, k: real, p: Quat)
    ensures Mul(c, Scale(k, p)) == Scale(k, Mul(c, p))
  {
    hide Mul;
    ConjMul(c, p);
    ConjMul(c, Scale(k, p));
    MulScaled(k, Conj(p), Conj(c));
    assert Conj(Scale(k, p)) == Scale(k, Conj(p));
    assert Conj(Scale(k, Mul(c, p))) == Scale(k, Conj(Mul(c, p)));
    ConjConj(Mul(c, Scale(k, p)));
  }

  // ---- rotations ----

  lemma RotatePure(q: Quat, v: Vec)
    ensures Pure(Rotate(q, v)) == Mul(Mul(q, Pure(v)), Conj(q))
  {
  }

  lemma PureInjective(u: Vec, v: Vec)
    requires Pure(u) == Pure(v)
    ensures u == v
  {
  }

  /** Rotating by a product is rotating twice. */
  lemma RotateMul(a: Quat, b: Quat, v: Vec)
    ensures Rotate(Mul(a, b), v) == Rotate(a, Rotate(b, v))
  {
    hide *;
    RotatePure(a, Rotate(b, v));
    RotatePure(b, v);
    RotatePure(Mul(a, b), v);
    var m := Pure(v);
    ConjMul(a, b);
    MulAssoc(a, b, m);
    MulAssoc(a, Mul(b, m), Conj(b));
    MulAssoc(Mul(a, Mul(b, m)), Conj(b), Conj(a));
    PureInjective(Rotate(Mul(a, b), v), Rotate(a, Rotate(b, v)));
  }

  lemma RotateOne(v: Vec)
    ensures Rotate(ONE, v) == v
  {
    hide Mul, Conj;
    MulOne(Pure(v));
    ConjOne();
  }

  lemma RotateAdd(q: Quat, u: Vec, v: Vec)
    ensures Rotate(q, Add(u, v)) == Add(Rotate(q, u), Rotate(q, v))
  {
  }

  lemma RotateNeg(q: Quat, v: Vec)
    ensures Rotate(q, Neg(v)) == Neg(Rotate(q, v))
  {
    hide Mul, Conj;
    assert Pure(Neg(v)) == Scale(-1.0, Pure(v));
    LeftScale(q, -1.0, Pure(v));
    MulScaled(-1.0, Mul(q, Pure(v)), Conj(q));
  }

  lemma RotateZero(q: Quat)
    ensures Rotate(q, ZERO) == ZERO
  {
  }

  /** Rotating by a unit quaternion and by its conjugate undo each other. */
  lemma RotateBack(q: Quat, v: Vec)
    requires IsUnit(q)
    ensures Rotate(Conj(q), Rotate(q, v)) == v && Rotate(q, Rotate(Conj(q), v)) == v
  {
    hide *;
    RotateMul(Conj(q), q, v);
    RotateMul(q, Conj(q), v);
    UnitConj(q);
    RotateOne(v);
  }

  /** The sign of a quaternion does not change the rotation it stands for. */
  lemma RotateSign(q: Quat, v: Vec)
    ensures Rotate(Scale(-1.0, q), v) == Rotate(q, v)
  {
    hide Mul;
    var m := Mul(q, Pure(v));
    assert Conj(Scale(-1.0, q)) == Scale(-1.0, Conj(q));
    MulScaled(-1.0, q, Pure(v));
    MulScaled(-1.0, m, Scale(-1.0, Conj(q)));
    LeftScale(m, -1.0, Conj(q));
  }

  // ---- cross products ----

  function Sandwich(q: Quat, m: Quat): Quat {
    Mul(Mul(q, m), Conj(q))
  }

  lemma RotateSandwich(q: Quat, v: Vec)
    ensures Pure(Rotate(q, v)) == Sandwich(q, Pure(v))
  {
    RotatePure(q, v);
  }

  lemma SandwichPlus(q: Quat, m: Quat, n: Quat)
    ensures Sandwich(q, Plus(m, n)) == Plus(Sandwich(q, m), Sandwich(q, n))
  {
    hide Mul, Conj, Plus, Scale, IsUnit;
    LeftPlus(q, m, n);
    MulPlus(Mul(q, m), Mul(q, n), Conj(q));
  }

  lemma SandwichScale(q: Quat, k: real, m: Quat)
    ensures Sandwich(q, Scale(k, m)) == Scale(k, Sandwich(q, m))
  {
    hide Mul, Conj, Plus, Scale, IsUnit;
    LeftScale(q, k, m);
    MulScaled(k, Mul(q, m), Conj(q));
  }

  lemma SandwichMul(q: Quat, m: Quat, n: Quat)
    requires IsUnit(q)
    ensures Sandwich(q, Mul(m, n)) == Mul(Sandwich(q, m), Sandwich(q, n))
  {
    hide Mul, Conj, Plus, Scale, IsUnit;
    var qm, c := Mul(q, m), Conj(q);
    MulAssoc(q, m, n);
    MulAssoc(Mul(qm, c), Mul(q, n), c);
    MulAssoc(qm, c, Mul(q, n));
    CancelLeft(q, n);
    MulAssoc(qm, n, c);
  }

  /** Twice the cross product is the commutator of the pure quaternions. */
  lemma Commutator(a: Vec, b: Vec)
    ensures Scale(2.0, Pure(Cross(a, b))) == Plus(Mul(Pure(a), Pure(b)), Scale(-1.0, Mul(Pure(b), Pure(a))))
  {
  }

  lemma HalveInjective(a: Quat, b: Quat)
    requires Scale(2.0, a) == Scale(2.0, b)
    ensures a == b
  {
  }

  /** Rotations keep cross products: lever-arm velocities may be taken before or after a change of frame. */
  lemma RotateCross(q: Quat, a: Vec, b: Vec)
    requires IsUnit(q)
    ensures Rotate(q, Cross(a, b)) == Cross(Rotate(q, a), Rotate(q, b))
  {
    hide *;
    var pa, pb := Pure(a), Pure(b);
    RotateSandwich(q, a);
    RotateSandwich(q, b);
    RotateSandwich(q, Cross(a, b));
    Commutator(a, b);
    Commutator(Rotate(q, a), Rotate(q, b));
    SandwichMul(q, pa, pb);
    SandwichMul(q, pb, pa);
    SandwichScale(q, -1.0, Mul(pb, pa));
    SandwichPlus(q, Mul(pa, pb), Scale(-1.0, Mul(pb, pa)));
    SandwichScale(q, 2.0, Pure(Cross(a, b)));
    HalveInjective(Pure(Rotate(q, Cross(a, b))), Pure(Cross(Rotate(q, a), Rotate(q, b))));
    PureInjective(Rotate(q, Cross(a, b)), Cross(Rotate(q, a), Rotate(q, b)));
  }
}
