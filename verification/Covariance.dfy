/** Covariances under a change of frame: the four 3x3 blocks of a 6x6 matrix, each taken between a rotation matrix and
    its transpose. */
module Covariance {
  import opened Quaternion

  /** A 3x3 matrix by rows. */
  datatype Mat = Mat(r0: Vec, r1: Vec, r2: Vec)

  function Inner(u: Vec, v: Vec): real {
    u.x * v.x + u.y * v.y + u.z * v.z
  }

  function Apply(m: Mat, v: Vec): Vec {
    Vec(Inner(m.r0, v), Inner(m.r1, v), Inner(m.r2, v))
  }

  function Transpose(m: Mat): Mat {
    Mat(Vec(m.r0.x, m.r1.x, m.r2.x), Vec(m.r0.y, m.r1.y, m.r2.y), Vec(m.r0.z, m.r1.z, m.r2.z))
  }

  function Times(a: Mat, b: Mat): Mat {
    var t := Transpose(b);
    Mat(Apply(t, a.r0), Apply(t, a.r1), Apply(t, a.r2))
  }

  /** The block in the rotated frame. */
  function Congruence(r: Mat, b: Mat): Mat {
    Times(Times(r, b), Transpose(r))
  }

  function Term(a: real, b: real): real {
    a * b
  }

  /** The ten products of two components. */
  datatype Products = Products(
    xx: real, yy: real, zz: real, ww: real, xy: real, xz: real, yz: real, xw: real, yw: real, zw: real)

  function ProductsOf(q: Quat): Products {
    Products(Term(q.x, q.x), Term(q.y, q.y), Term(q.z, q.z), Term(q.w, q.w), Term(q.x, q.y),
             Term(q.x, q.z), Term(q.y, q.z), Term(q.x, q.w), Term(q.y, q.w), Term(q.z, q.w))
  }

  /** The matrix of a quaternion, by the formula that takes it to be unit. */
  function RotationMatrix(q: Quat): Mat {
    var p := ProductsOf(q);
    Mat(Vec(1.0 - 2.0 * (p.yy + p.zz), 2.0 * (p.xy - p.zw), 2.0 * (p.xz + p.yw)),
        Vec(2.0 * (p.xy + p.zw), 1.0 - 2.0 * (p.xx + p.zz), 2.0 * (p.yz - p.xw)),
        Vec(2.0 * (p.xz - p.yw), 2.0 * (p.yz + p.xw), 1.0 - 2.0 * (p.xx + p.yy)))
  }

  // ---- 6x6 ----

  function Block(c: seq<real>, r0: nat, c0: nat): Mat
    requires |c| == 36 && r0 <= 3 && c0 <= 3
  {
    var k := r0 * 6 + c0;
    Mat(Vec(c[k], c[k + 1], c[k + 2]), Vec(c[k + 6], c[k + 7], c[k + 8]), Vec(c[k + 12], c[k + 13], c[k + 14]))
  }

  function Component(v: Vec, j: nat): real
    requires j < 3
  {
    if j == 0 then v.x else if j == 1 then v.y else v.z
  }

  function At(m: Mat, i: nat, j: nat): real
    requires i < 3 && j < 3
  {
    Component(if i == 0 then m.r0 else if i == 1 then m.r1 else m.r2, j)
  }

  /** The covariance whose blocks are the congruences of the blocks of c. */
  ghost predicate IsRotated(c: seq<real>, r: Mat, out: seq<real>)
    requires |c| == 36 && |out| == 36
  {
    && Block(out, 0, 0) == Congruence(r, Block(c, 0, 0))
    && Block(out, 0, 3) == Congruence(r, Block(c, 0, 3))
    && Block(out, 3, 0) == Congruence(r, Block(c, 3, 0))
    && Block(out, 3, 3) == Congruence(r, Block(c, 3, 3))
  }

  /** The covariance of two directions; a direction has a translational and a rotational part. */
  function Form(c: seq<real>, u: Vec, u': Vec, v: Vec, v': Vec): real
    requires |c| == 36
  {
    Inner(u, Apply(Block(c, 0, 0), v)) + Inner(u, Apply(Block(c, 0, 3), v'))
    + Inner(u', Apply(Block(c, 3, 0), v)) + Inner(u', Apply(Block(c, 3, 3), v'))
  }

  // ---- matrices ----

  function Prod(a: real, m: real, v: real): real {
    a * m * v
  }

  lemma InnerIs(u: Vec, v: Vec)
    ensures Inner(u, v) == u.x * v.x + u.y * v.y + u.z * v.z
  {
  }

  lemma Spread(k: real, r: Vec, v: Vec)
    ensures k * Inner(r, v) == Prod(k, r.x, v.x) + Prod(k, r.y, v.y) + Prod(k, r.z, v.z)
  {
  }

  lemma Gather(c: Vec, a: Vec, k: real)
    ensures Inner(c, a) * k == Prod(a.x, c.x, k) + Prod(a.y, c.y, k) + Prod(a.z, c.z, k)
  {
  }

  /** Nine products, summed by rows or by columns. */
  lemma InnerRows(a: Vec, m: Mat, v: Vec)
    ensures Inner(Apply(Transpose(m), a), v) == Inner(a, Apply(m, v))
  {
    hide Inner, Prod;
    var t := Transpose(m);
    InnerIs(Apply(t, a), v);
    InnerIs(a, Apply(m, v));
    Spread(a.x, m.r0, v);
    Spread(a.y, m.r1, v);
    Spread(a.z, m.r2, v);
    Gather(t.r0, a, v.x);
    Gather(t.r1, a, v.y);
    Gather(t.r2, a, v.z);
  }

  lemma ApplyTimes(a: Mat, b: Mat, v: Vec)
    ensures Apply(Times(a, b), v) == Apply(a, Apply(b, v))
  {
    hide Inner, Transpose;
    InnerRows(a.r0, b, v);
    InnerRows(a.r1, b, v);
    InnerRows(a.r2, b, v);
  }

  lemma TransposeTwice(m: Mat)
    ensures Transpose(Transpose(m)) == m
  {
  }

  lemma Columns(m: Mat)
    ensures Apply(m, E_X) == Vec(m.r0.x, m.r1.x, m.r2.x)
    ensures Apply(m, E_Y) == Vec(m.r0.y, m.r1.y, m.r2.y)
    ensures Apply(m, E_Z) == Vec(m.r0.z, m.r1.z, m.r2.z)
  {
  }

  /** A matrix is what it does to the three axes. */
  lemma SameColumns(m: Mat, n: Mat)
    requires Apply(m, E_X) == Apply(n, E_X) && Apply(m, E_Y) == Apply(n, E_Y) && Apply(m, E_Z) == Apply(n, E_Z)
    ensures m == n
  {
    hide Apply;
    Columns(m);
    Columns(n);
  }

  lemma TimesTransposed(a: Mat, b: Mat)
    ensures Transpose(Times(a, b)) == Times(Transpose(b), Transpose(a))
  {
  }

  // ---- rotation matrices ----

  function ScaleVec(k: real, v: Vec): Vec {
    Vec(k * v.x, k * v.y, k * v.z)
  }

  lemma AxesSum(v: Vec)
    ensures v == Add(Add(ScaleVec(v.x, E_X), ScaleVec(v.y, E_Y)), ScaleVec(v.z, E_Z))
  {
  }

  lemma RotateScale(q: Quat, k: real, v: Vec)
    ensures Rotate(q, ScaleVec(k, v)) == ScaleVec(k, Rotate(q, v))
  {
    hide Mul, Conj;
    assert Pure(ScaleVec(k, v)) == Scale(k, Pure(v));
    LeftScale(q, k, Pure(v));
    MulScaled(k, Mul(q, Pure(v)), Conj(q));
  }

  lemma ApplyColumns(m: Mat, v: Vec)
    ensures Apply(m, v)
            == Add(Add(ScaleVec(v.x, Apply(m, E_X)), ScaleVec(v.y, Apply(m, E_Y))), ScaleVec(v.z, Apply(m, E_Z)))
  {
  }

  lemma NormOfProducts(q: Quat)
    ensures var p := ProductsOf(q); Norm2(q) == p.xx + p.yy + p.zz + p.ww
  {
  }

  lemma TermSigns(a: real, b: real)
    ensures Term(-a, b) == Term(a, -b) == -Term(a, b) && Term(-a, -b) == Term(a, b) && Term(b, a) == Term(a, b)
  {
  }

  lemma NegatedTerms(a: real, n: Quat)
    ensures Term(-a, n.x) == -Term(a, n.x) && Term(-a, n.y) == -Term(a, n.y)
    ensures Term(-a, n.z) == -Term(a, n.z) && Term(-a, n.w) == -Term(a, n.w)
  {
  }

  lemma Signs(q: Quat)
    ensures var p, n := ProductsOf(q), Conj(q);
            && Term(q.w, n.x) == -p.xw && Term(q.x, n.w) == p.xw
            && Term(q.w, n.y) == -p.yw && Term(q.y, n.w) == p.yw
            && Term(q.w, n.z) == -p.zw && Term(q.z, n.w) == p.zw
            && Term(q.x, n.y) == Term(q.y, n.x) == -p.xy
            && Term(q.x, n.z) == Term(q.z, n.x) == -p.xz
            && Term(q.y, n.z) == Term(q.z, n.y) == -p.yz
            && Term(q.x, n.x) == -p.xx && Term(q.y, n.y) == -p.yy && Term(q.z, n.z) == -p.zz && Term(q.w, n.w) == p.ww
  {
    hide Term;
    TermSigns(q.x, q.w);
    TermSigns(q.y, q.w);
    TermSigns(q.z, q.w);
    TermSigns(q.w, q.x);
    TermSigns(q.w, q.y);
    TermSigns(q.w, q.z);
    TermSigns(q.x, q.y);
    TermSigns(q.y, q.x);
    TermSigns(q.x, q.z);
    TermSigns(q.z, q.x);
    TermSigns(q.y, q.z);
    TermSigns(q.z, q.y);
    TermSigns(q.x, q.x);
    TermSigns(q.y, q.y);
    TermSigns(q.z, q.z);
  }

  lemma MulTerms(a: Quat, b: Quat)
    ensures Mul(a, b).x == Term(a.w, b.x) + Term(a.x, b.w) + Term(a.y, b.z) - Term(a.z, b.y)
    ensures Mul(a, b).y == Term(a.w, b.y) - Term(a.x, b.z) + Term(a.y, b.w) + Term(a.z, b.x)
    ensures Mul(a, b).z == Term(a.w, b.z) + Term(a.x, b.y) - Term(a.y, b.x) + Term(a.z, b.w)
  {
  }

  lemma ProductsOfConj(q: Quat)
    ensures var p := ProductsOf(q); ProductsOf(Conj(q)) == p.(xw := -p.xw, yw := -p.yw, zw := -p.zw)
  {
    hide Term;
    TermSigns(q.x, q.w);
    TermSigns(q.y, q.w);
    TermSigns(q.z, q.w);
    TermSigns(q.x, q.y);
    TermSigns(q.x, q.z);
    TermSigns(q.y, q.z);
    TermSigns(q.x, q.x);
    TermSigns(q.y, q.y);
    TermSigns(q.z, q.z);
  }

  lemma XTurn(q: Quat)
    ensures Mul(q, Pure(E_X)) == Quat(q.w, q.z, -q.y, -q.x)
  {
  }

  lemma XAxisRotated(q: Quat)
    ensures var p := ProductsOf(q);
            Rotate(q, E_X) == Vec(p.ww + p.xx - p.yy - p.zz, 2.0 * (p.xy + p.zw), 2.0 * (p.xz - p.yw))
  {
    hide Mul, ProductsOf, Term;
    var n := Conj(q);
    XTurn(q);
    MulTerms(Quat(q.w, q.z, -q.y, -q.x), n);
    Signs(q);
    NegatedTerms(q.y, n);
    NegatedTerms(q.x, n);
  }

  lemma YTurn(q: Quat)
    ensures Mul(q, Pure(E_Y)) == Quat(-q.z, q.w, q.x, -q.y)
  {
  }

  lemma YAxisRotated(q: Quat)
    ensures var p := ProductsOf(q);
            Rotate(q, E_Y) == Vec(2.0 * (p.xy - p.zw), p.ww - p.xx + p.yy - p.zz, 2.0 * (p.yz + p.xw))
  {
    hide Mul, ProductsOf, Term;
    var n := Conj(q);
    YTurn(q);
    MulTerms(Quat(-q.z, q.w, q.x, -q.y), n);
    Signs(q);
    NegatedTerms(q.z, n);
    NegatedTerms(q.y, n);
  }

  lemma ZTurn(q: Quat)
    ensures Mul(q, Pure(E_Z)) == Quat(q.y, -q.x, q.w, -q.z)
  {
  }

  lemma ZAxisRotated(q: Quat)
    ensures var p := ProductsOf(q);
            Rotate(q, E_Z) == Vec(2.0 * (p.xz + p.yw), 2.0 * (p.yz - p.xw), p.ww - p.xx - p.yy + p.zz)
  {
    hide Mul, ProductsOf, Term;
    var n := Conj(q);
    ZTurn(q);
    MulTerms(Quat(q.y, -q.x, q.w, -q.z), n);
    Signs(q);
    NegatedTerms(q.x, n);
    NegatedTerms(q.z, n);
  }

  lemma XColumn(q: Quat)
    requires IsUnit(q)
    ensures Apply(RotationMatrix(q), E_X) == Rotate(q, E_X)
  {
    hide Apply, Rotate, ProductsOf, Norm2;
    Columns(RotationMatrix(q));
    XAxisRotated(q);
    NormOfProducts(q);
  }

  lemma YColumn(q: Quat)
    requires IsUnit(q)
    ensures Apply(RotationMatrix(q), E_Y) == Rotate(q, E_Y)
  {
    hide Apply, Rotate, ProductsOf, Norm2;
    Columns(RotationMatrix(q));
    YAxisRotated(q);
    NormOfProducts(q);
  }

  lemma ZColumn(q: Quat)
    requires IsUnit(q)
    ensures Apply(RotationMatrix(q), E_Z) == Rotate(q, E_Z)
  {
    hide Apply, Rotate, ProductsOf, Norm2;
    Columns(RotationMatrix(q));
    ZAxisRotated(q);
    NormOfProducts(q);
  }

  /** The matrix of a unit quaternion rotates as the quaternion does. */
  lemma MatrixRotates(q: Quat, v: Vec)
    requires IsUnit(q)
    ensures Apply(RotationMatrix(q), v) == Rotate(q, v)
  {
    hide Apply, RotationMatrix, Rotate, Add, ScaleVec, IsUnit;
    AxesSum(v);
    RotateAdd(q, Add(ScaleVec(v.x, E_X), ScaleVec(v.y, E_Y)), ScaleVec(v.z, E_Z));
    RotateAdd(q, ScaleVec(v.x, E_X), ScaleVec(v.y, E_Y));
    RotateScale(q, v.x, E_X);
    RotateScale(q, v.y, E_Y);
    RotateScale(q, v.z, E_Z);
    ApplyColumns(RotationMatrix(q), v);
    XColumn(q);
    YColumn(q);
    ZColumn(q);
  }

  lemma TransposeIsConj(q: Quat)
    ensures Transpose(RotationMatrix(q)) == RotationMatrix(Conj(q))
  {
    hide ProductsOf;
    ProductsOfConj(q);
  }

  lemma TransposeUndoes(q: Quat, v: Vec)
    requires IsUnit(q)
    ensures Apply(Transpose(RotationMatrix(q)), Rotate(q, v)) == v
    ensures Apply(RotationMatrix(q), Apply(Transpose(RotationMatrix(q)), v)) == v
  {
    hide Apply, RotationMatrix, Rotate, Transpose, IsUnit;
    UnitConj(q);
    TransposeIsConj(q);
    MatrixRotates(Conj(q), Rotate(q, v));
    MatrixRotates(Conj(q), v);
    MatrixRotates(q, Rotate(Conj(q), v));
    RotateBack(q, v);
  }

  // ---- what a rotated block means ----

  lemma CongruenceApplied(r: Mat, b: Mat, v: Vec)
    ensures Apply(Congruence(r, b), v) == Apply(r, Apply(b, Apply(Transpose(r), v)))
  {
    hide Apply, Times, Transpose;
    ApplyTimes(Times(r, b), Transpose(r), v);
    ApplyTimes(r, b, Apply(Transpose(r), v));
  }

  /** The rotated block pairs rotated vectors as the block pairs the vectors. */
  lemma RotatedPairing(q: Quat, b: Mat, u: Vec, v: Vec)
    requires IsUnit(q)
    ensures Inner(Rotate(q, u), Apply(Congruence(RotationMatrix(q), b), Rotate(q, v))) == Inner(u, Apply(b, v))
  {
    hide Apply, Inner, Congruence, RotationMatrix, Rotate, Transpose, IsUnit;
    var r := RotationMatrix(q);
    CongruenceApplied(r, b, Rotate(q, v));
    TransposeUndoes(q, v);
    TransposeUndoes(q, u);
    InnerRows(Rotate(q, u), r, Apply(b, v));
  }

  /** Rotating a covariance keeps the covariance of any two directions that rotate along: variances included, nothing is
      lost or mixed between the translational and the rotational part. */
  lemma CovarianceFollows(q: Quat, c: seq<real>, out: seq<real>, u: Vec, u': Vec, v: Vec, v': Vec)
    requires IsUnit(q) && |c| == 36 && |out| == 36 && IsRotated(c, RotationMatrix(q), out)
    ensures Form(out, Rotate(q, u), Rotate(q, u'), Rotate(q, v), Rotate(q, v')) == Form(c, u, u', v, v')
  {
    hide Apply, Inner, Congruence, RotationMatrix, Rotate, IsUnit, Block;
    RotatedPairing(q, Block(c, 0, 0), u, v);
    RotatedPairing(q, Block(c, 0, 3), u, v');
    RotatedPairing(q, Block(c, 3, 0), u', v);
    RotatedPairing(q, Block(c, 3, 3), u', v');
  }

  lemma CongruenceUndone(q: Quat, b: Mat)
    requires IsUnit(q)
    ensures Congruence(RotationMatrix(Conj(q)), Congruence(RotationMatrix(q), b)) == b
  {
    hide Apply, Congruence, RotationMatrix, Rotate, Transpose, IsUnit;
    CongruenceUndoneAt(q, b, E_X);
    CongruenceUndoneAt(q, b, E_Y);
    CongruenceUndoneAt(q, b, E_Z);
    SameColumns(Congruence(RotationMatrix(Conj(q)), Congruence(RotationMatrix(q), b)), b);
  }

  lemma CongruenceUndoneAt(q: Quat, b: Mat, v: Vec)
    requires IsUnit(q)
    ensures Apply(Congruence(RotationMatrix(Conj(q)), Congruence(RotationMatrix(q), b)), v) == Apply(b, v)
  {
    hide Apply, Congruence, RotationMatrix, Rotate, Transpose, IsUnit;
    var r, r' := RotationMatrix(q), RotationMatrix(Conj(q));
    TransposeIsConj(q);
    TransposeTwice(r);
    CongruenceApplied(r', Congruence(r, b), v);
    CongruenceApplied(r, b, Apply(r, v));
    MatrixRotates(q, v);
    TransposeUndoes(q, v);
    MatrixRotates(q, Apply(b, v));
    TransposeUndoes(q, Apply(b, v));
  }

  lemma BlocksDetermine(c: seq<real>, d: seq<real>)
    requires |c| == 36 && |d| == 36
    requires Block(c, 0, 0) == Block(d, 0, 0) && Block(c, 0, 3) == Block(d, 0, 3)
    requires Block(c, 3, 0) == Block(d, 3, 0) && Block(c, 3, 3) == Block(d, 3, 3)
    ensures c == d
  {
  }

  /** Rotating and rotating back gives every entry back. */
  lemma RotatedBack(q: Quat, c: seq<real>, out: seq<real>, back: seq<real>)
    requires IsUnit(q) && |c| == 36 && |out| == 36 && |back| == 36
    requires IsRotated(c, RotationMatrix(q), out) && IsRotated(out, RotationMatrix(Conj(q)), back)
    ensures back == c
  {
    hide Congruence, RotationMatrix, IsUnit, Block;
    CongruenceUndone(q, Block(c, 0, 0));
    CongruenceUndone(q, Block(c, 0, 3));
    CongruenceUndone(q, Block(c, 3, 0));
    CongruenceUndone(q, Block(c, 3, 3));
    BlocksDetermine(back, c);
  }

  predicate SameAcross(c: seq<real>, i: nat, j: nat)
    requires |c| == 36 && i < 6 && j < 6
  {
    c[i * 6 + j] == c[j * 6 + i]
  }

  ghost predicate Symmetric(c: seq<real>)
    requires |c| == 36
  {
    forall i, j :: 0 <= i < 6 && 0 <= j < 6 ==> SameAcross(c, i, j)
  }

  /** Symmetric by blocks. */
  predicate SymmetricInBlocks(c: seq<real>)
    requires |c| == 36
  {
    && Transpose(Block(c, 0, 0)) == Block(c, 0, 0)
    && Transpose(Block(c, 3, 3)) == Block(c, 3, 3)
    && Transpose(Block(c, 0, 3)) == Block(c, 3, 0)
  }

  lemma BlocksOfSymmetric(c: seq<real>)
    requires |c| == 36 && Symmetric(c)
    ensures SymmetricInBlocks(c)
  {
    assert SameAcross(c, 0, 1) && SameAcross(c, 0, 2) && SameAcross(c, 1, 2);
    assert SameAcross(c, 3, 4) && SameAcross(c, 3, 5) && SameAcross(c, 4, 5);
    assert SameAcross(c, 0, 3) && SameAcross(c, 0, 4) && SameAcross(c, 0, 5);
    assert SameAcross(c, 1, 3) && SameAcross(c, 1, 4) && SameAcross(c, 1, 5);
    assert SameAcross(c, 2, 3) && SameAcross(c, 2, 4) && SameAcross(c, 2, 5);
  }

  lemma SymmetricOfBlocks(c: seq<real>)
    requires |c| == 36 && SymmetricInBlocks(c)
    ensures Symmetric(c)
  {
    forall i, j | 0 <= i < 6 && 0 <= j < 6 ensures SameAcross(c, i, j) {
      assert i == 0 || i == 1 || i == 2 || i == 3 || i == 4 || i == 5;
      assert j == 0 || j == 1 || j == 2 || j == 3 || j == 4 || j == 5;
    }
  }

  lemma CongruenceTransposed(r: Mat, b: Mat)
    ensures Transpose(Congruence(r, b)) == Congruence(r, Transpose(b))
  {
    hide Times, Transpose;
    TimesTransposed(Times(r, b), Transpose(r));
    TimesTransposed(r, b);
    TransposeTwice(r);
    TimesAssoc(r, Transpose(b), Transpose(r));
  }

  lemma TimesAssoc(a: Mat, b: Mat, c: Mat)
    ensures Times(Times(a, b), c) == Times(a, Times(b, c))
  {
    hide Apply, Times;
    TimesAssocAt(a, b, c, E_X);
    TimesAssocAt(a, b, c, E_Y);
    TimesAssocAt(a, b, c, E_Z);
    SameColumns(Times(Times(a, b), c), Times(a, Times(b, c)));
  }

  lemma TimesAssocAt(a: Mat, b: Mat, c: Mat, v: Vec)
    ensures Apply(Times(Times(a, b), c), v) == Apply(Times(a, Times(b, c)), v)
  {
    hide Apply, Times;
    ApplyTimes(Times(a, b), c, v);
    ApplyTimes(a, b, Apply(c, v));
    ApplyTimes(a, Times(b, c), v);
    ApplyTimes(b, c, v);
  }

  /** A symmetric covariance stays symmetric, for any matrix. */
  lemma SymmetryKept(r: Mat, c: seq<real>, out: seq<real>)
    requires |c| == 36 && |out| == 36 && IsRotated(c, r, out) && Symmetric(c)
    ensures Symmetric(out)
  {
    hide Transpose, Congruence, Block, Symmetric;
    BlocksOfSymmetric(c);
    CongruenceTransposed(r, Block(c, 0, 0));
    CongruenceTransposed(r, Block(c, 0, 3));
    CongruenceTransposed(r, Block(c, 3, 3));
    SymmetricOfBlocks(out);
  }

  // ---- the array form ----

  predicate EntryIs(c: seq<real>, r0: nat, c0: nat, m: Mat, i: nat, j: nat)
    requires |c| == 36 && r0 <= 3 && c0 <= 3 && i < 3 && j < 3
  {
    c[(r0 + i) * 6 + (c0 + j)] == At(m, i, j)
  }

  lemma BlockOfEntries(c: seq<real>, r0: nat, c0: nat, m: Mat)
    requires |c| == 36 && r0 <= 3 && c0 <= 3
    requires forall i, j :: 0 <= i < 3 && 0 <= j < 3 ==> EntryIs(c, r0, c0, m, i, j)
    ensures Block(c, r0, c0) == m
  {
    assert EntryIs(c, r0, c0, m, 0, 0) && EntryIs(c, r0, c0, m, 0, 1) && EntryIs(c, r0, c0, m, 0, 2);
    assert EntryIs(c, r0, c0, m, 1, 0) && EntryIs(c, r0, c0, m, 1, 1) && EntryIs(c, r0, c0, m, 1, 2);
    assert EntryIs(c, r0, c0, m, 2, 0) && EntryIs(c, r0, c0, m, 2, 1) && EntryIs(c, r0, c0, m, 2, 2);
  }

  /** Writing one entry makes it right and keeps the others. */
  lemma EntriesKept(c: seq<real>, r0: nat, c0: nat, m: Mat, i: nat, j: nat)
    requires |c| == 36 && r0 <= 3 && c0 <= 3 && i < 3 && j < 3
    ensures var d := c[(r0 + i) * 6 + (c0 + j) := At(m, i, j)];
            && EntryIs(d, r0, c0, m, i, j)
            && forall a, b :: 0 <= a < 3 && 0 <= b < 3 && EntryIs(c, r0, c0, m, a, b) ==> EntryIs(d, r0, c0, m, a, b)
  {
  }

  predicate Inside(r0: nat, c0: nat, k: nat) {
    r0 <= k / 6 < r0 + 3 && c0 <= k % 6 < c0 + 3
  }

  method SetBlock(out: array<real>, m: Mat, r0: nat, c0: nat)
    requires out.Length == 36 && r0 <= 3 && c0 <= 3
    modifies out
    ensures Block(out[..], r0, c0) == m
    ensures forall k :: 0 <= k < 36 && !Inside(r0, c0, k) ==> out[k] == old(out[k])
  {
    for i := 0 to 3
      invariant forall a, b :: 0 <= a < i && 0 <= b < 3 ==> EntryIs(out[..], r0, c0, m, a, b)
      invariant forall k :: 0 <= k < 36 && !Inside(r0, c0, k) ==> out[k] == old(out[k])
    {
      for j := 0 to 3
        invariant forall a, b :: 0 <= a < i && 0 <= b < 3 ==> EntryIs(out[..], r0, c0, m, a, b)
        invariant forall b :: 0 <= b < j ==> EntryIs(out[..], r0, c0, m, i, b)
        invariant forall k :: 0 <= k < 36 && !Inside(r0, c0, k) ==> out[k] == old(out[k])
      {
        ghost var before := out[..];
        out[(r0 + i) * 6 + (c0 + j)] := At(m, i, j);
        assert out[..] == before[(r0 + i) * 6 + (c0 + j) := At(m, i, j)];
        EntriesKept(before, r0, c0, m, i, j);
      }
    }
    BlockOfEntries(out[..], r0, c0, m);
  }

  /** A block elsewhere is not touched. */
  lemma BlockElsewhere(c: seq<real>, d: seq<real>, r0: nat, c0: nat, r: nat, k0: nat)
    requires |c| == |d| == 36 && r0 in {0, 3} && c0 in {0, 3} && r in {0, 3} && k0 in {0, 3} && (r != r0 || k0 != c0)
    requires forall k :: 0 <= k < 36 && !Inside(r0, c0, k) ==> d[k] == c[k]
    ensures Block(d, r, k0) == Block(c, r, k0)
  {
    var n := r * 6 + k0;
    assert !Inside(r0, c0, n) && !Inside(r0, c0, n + 1) && !Inside(r0, c0, n + 2);
    assert !Inside(r0, c0, n + 6) && !Inside(r0, c0, n + 7) && !Inside(r0, c0, n + 8);
    assert !Inside(r0, c0, n + 12) && !Inside(r0, c0, n + 13) && !Inside(r0, c0, n + 14);
  }

  method RotateCovariance(cov: array<real>, r: Mat) returns (out: array<real>)
    requires cov.Length == 36
    ensures fresh(out) && out.Length == 36
    ensures IsRotated(cov[..], r, out[..])
  {
    var c := cov[..];
    var pp, pr := Congruence(r, Block(c, 0, 0)), Congruence(r, Block(c, 0, 3));
    var rp, rr := Congruence(r, Block(c, 3, 0)), Congruence(r, Block(c, 3, 3));
    out := new real[36](_ => 0.0);
    hide Congruence, Block, Inside;
    SetBlock(out, pp, 0, 0);
    ghost var c1 := out[..];
    SetBlock(out, pr, 0, 3);
    ghost var c2 := out[..];
    BlockElsewhere(c1, c2, 0, 3, 0, 0);
    SetBlock(out, rp, 3, 0);
    ghost var c3 := out[..];
    BlockElsewhere(c2, c3, 3, 0, 0, 0);
    BlockElsewhere(c2, c3, 3, 0, 0, 3);
    SetBlock(out, rr, 3, 3);
    BlockElsewhere(c3, out[..], 3, 3, 0, 0);
    BlockElsewhere(c3, out[..], 3, 3, 0, 3);
    BlockElsewhere(c3, out[..], 3, 3, 3, 0);
  }
}
