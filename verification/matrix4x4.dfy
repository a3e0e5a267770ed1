/** The 4x4 affine/projective matrix of the viewer, stored column-major as
    four column vectors v0..v3, over exact reals.

    `Mat3` stands for the 3x3 rotation matrix the C++ code builds from a
    quaternion; quaternion arithmetic is not part of this model, so a
    rotation enters as its three columns. */
module Matrix4x4 {
  import opened Vectors
  import E = ExtReals

  /** Columns v0..v3; entry (i, j) is row i of column j. */
  datatype Mat4 = Mat4(v0: Vec4, v1: Vec4, v2: Vec4, v3: Vec4)

  /** A 3x3 matrix given by its columns, `r[0]`, `r[1]`, `r[2]`. */
  datatype Mat3 = Mat3(c0: Vec3, c1: Vec3, c2: Vec3)

  /** `m[j]`: column j. */
  function Column(m: Mat4, j: int): Vec4
    requires 0 <= j < 4
  {
    if j == 0 then m.v0 else if j == 1 then m.v1 else if j == 2 then m.v2 else m.v3
  }

  /** `m(i, j)`: the element in row i of column j, read as `m[j][i]`. */
  function Entry(m: Mat4, i: int, j: int): real
    requires 0 <= i < 4 && 0 <= j < 4
  {
    At4(Column(m, j), i)
  }

  /** Row i of m, `(m(i,0), m(i,1), m(i,2), m(i,3))`. */
  function Row(m: Mat4, i: int): Vec4
    requires 0 <= i < 4
  {
    Vec4(Entry(m, i, 0), Entry(m, i, 1), Entry(m, i, 2), Entry(m, i, 3))
  }

  /** The dot product of two four-vectors. */
  function Dot4(a: Vec4, b: Vec4): real {
    a.x * b.x + a.y * b.y + a.z * b.z + a.w * b.w
  }


  /** `set(s)`: s times the identity. */
  function Scalar(s: real): Mat4 {
    Mat4(Vec4(s, 0.0, 0.0, 0.0), Vec4(0.0, s, 0.0, 0.0), Vec4(0.0, 0.0, s, 0.0), Vec4(0.0, 0.0, 0.0, s))
  }

  /** `zero()`. */
  function Zero(): Mat4 {
    Scalar(0.0)
  }

  /** `identity()`. */
  function Identity(): Mat4 {
    Scalar(1.0)
  }

  /** `set(s)` puts s on the diagonal and 0 everywhere else; in particular
      `identity()` has 1 on the diagonal and `zero()` has no non-zero entry. */
  lemma ScalarEntries(s: real, i: int, j: int)
    requires 0 <= i < 4 && 0 <= j < 4
    ensures Entry(Scalar(s), i, j) == if i == j then s else 0.0
    ensures Entry(Identity(), i, j) == if i == j then 1.0 else 0.0
    ensures Entry(Zero(), i, j) == 0.0
  {
  }

  /** `transform(vec4)`: the column combination v0*p.x + v1*p.y + v2*p.z + v3*p.w. */
  function Transform(m: Mat4, p: Vec4): Vec4 {
    Add4(Add4(Add4(Scale4(m.v0, p.x), Scale4(m.v1, p.y)), Scale4(m.v2, p.z)), Scale4(m.v3, p.w))
  }

  /** The column combination is the row-by-column product with the entries
      `m(i, j)`: this is what makes the storage column-major. */
  lemma TransformByRows(m: Mat4, p: Vec4, i: int)
    requires 0 <= i < 4
    ensures At4(Transform(m, p), i) == Dot4(Row(m, i), p)
  {
  }

  /** `operator*(mat4)`: column j of a*b is a applied to column j of b. */
  function Mul(a: Mat4, b: Mat4): Mat4 {
    Mat4(Transform(a, b.v0), Transform(a, b.v1), Transform(a, b.v2), Transform(a, b.v3))
  }

  /** Entry (i, j) of a*b is row i of a dotted with column j of b. */
  lemma MulEntries(a: Mat4, b: Mat4, i: int, j: int)
    requires 0 <= i < 4 && 0 <= j < 4
    ensures Entry(Mul(a, b), i, j) == Dot4(Row(a, i), Column(b, j))
  {
    assert Column(Mul(a, b), j) == Transform(a, Column(b, j));
    TransformByRows(a, Column(b, j), i);
  }

  /** `transposed()`. */
  function Transposed(m: Mat4): Mat4 {
    Mat4(Vec4(m.v0.x, m.v1.x, m.v2.x, m.v3.x),
         Vec4(m.v0.y, m.v1.y, m.v2.y, m.v3.y),
         Vec4(m.v0.z, m.v1.z, m.v2.z, m.v3.z),
         Vec4(m.v0.w, m.v1.w, m.v2.w, m.v3.w))
  }

  /** Entry (i, j) of the transpose is entry (j, i) of m. */
  lemma TransposedEntries(m: Mat4, i: int, j: int)
    requires 0 <= i < 4 && 0 <= j < 4
    ensures Entry(Transposed(m), i, j) == Entry(m, j, i)
  {
  }

  /** Transposing twice gives back the matrix. */
  lemma TransposeInvolutive(m: Mat4)
    ensures Transposed(Transposed(m)) == m
  {
  }

  /** The four components of `transform(vec4)` written out. */
  lemma TransformComponents(m: Mat4, v: Vec4)
    ensures Transform(m, v).x == m.v0.x * v.x + m.v1.x * v.y + m.v2.x * v.z + m.v3.x * v.w
    ensures Transform(m, v).y == m.v0.y * v.x + m.v1.y * v.y + m.v2.y * v.z + m.v3.y * v.w
    ensures Transform(m, v).z == m.v0.z * v.x + m.v1.z * v.y + m.v2.z * v.z + m.v3.z * v.w
    ensures Transform(m, v).w == m.v0.w * v.x + m.v1.w * v.y + m.v2.w * v.z + m.v3.w * v.w
  {
  }

  /** `transform(vec4)` is the vector of the rows of m dotted with p. */
  lemma TransformRows(m: Mat4, p: Vec4)
    ensures Transform(m, p) == Vec4(Dot4(Row(m, 0), p), Dot4(Row(m, 1), p), Dot4(Row(m, 2), p), Dot4(Row(m, 3), p))
  {
    TransformComponents(m, p);
  }

  /** The dot product distributes over a sum in its second argument. */
  lemma Dot4Additive(r: Vec4, p: Vec4, q: Vec4)
    ensures Dot4(r, Add4(p, q)) == Dot4(r, p) + Dot4(r, q)
  {
  }

  /** `transform(vec4)` is additive in the vector. */
  lemma TransformAdditive(m: Mat4, p: Vec4, q: Vec4)
    ensures Transform(m, Add4(p, q)) == Add4(Transform(m, p), Transform(m, q))
  {
    TransformRows(m, p);
    TransformRows(m, q);
    TransformRows(m, Add4(p, q));
    Dot4Additive(Row(m, 0), p, q);
    Dot4Additive(Row(m, 1), p, q);
    Dot4Additive(Row(m, 2), p, q);
    Dot4Additive(Row(m, 3), p, q);
  }

  /** The four components of `transform(vec4)` applied to s*p, written out. */
  lemma TransformScaledComponents(m: Mat4, p: Vec4, s: real)
    ensures Transform(m, Scale4(p, s)).x == m.v0.x * (p.x * s) + m.v1.x * (p.y * s) + m.v2.x * (p.z * s) + m.v3.x * (p.w * s)
    ensures Transform(m, Scale4(p, s)).y == m.v0.y * (p.x * s) + m.v1.y * (p.y * s) + m.v2.y * (p.z * s) + m.v3.y * (p.w * s)
    ensures Transform(m, Scale4(p, s)).z == m.v0.z * (p.x * s) + m.v1.z * (p.y * s) + m.v2.z * (p.z * s) + m.v3.z * (p.w * s)
    ensures Transform(m, Scale4(p, s)).w == m.v0.w * (p.x * s) + m.v1.w * (p.y * s) + m.v2.w * (p.z * s) + m.v3.w * (p.w * s)
  {
  }

  /** Row x of the image of s*p, multiplied out, is s times row x of the
      image of p; stated over plain reals so that no function term is in sight. */
  lemma ScaledRowX(a: real, b: real, m: Mat4, p: Vec4, s: real)
    requires a == m.v0.x * (p.x * s) + m.v1.x * (p.y * s) + m.v2.x * (p.z * s) + m.v3.x * (p.w * s)
    requires b == m.v0.x * p.x + m.v1.x * p.y + m.v2.x * p.z + m.v3.x * p.w
    ensures a == b * s
  {
  }

  /** Component x of `transform(vec4)` commutes with scaling the vector. */
  lemma HomogeneousX(m: Mat4, p: Vec4, s: real)
    ensures Transform(m, Scale4(p, s)).x == Transform(m, p).x * s
  {
    TransformScaledComponents(m, p, s);
    TransformComponents(m, p);
    ScaledRowX(Transform(m, Scale4(p, s)).x, Transform(m, p).x, m, p, s);
  }

  /** Row y of the image of s*p, multiplied out, is s times row y of the
      image of p; stated over plain reals so that no function term is in sight. */
  lemma ScaledRowY(a: real, b: real, m: Mat4, p: Vec4, s: real)
    requires a == m.v0.y * (p.x * s) + m.v1.y * (p.y * s) + m.v2.y * (p.z * s) + m.v3.y * (p.w * s)
    requires b == m.v0.y * p.x + m.v1.y * p.y + m.v2.y * p.z + m.v3.y * p.w
    ensures a == b * s
  {
  }

  /** Component y of `transform(vec4)` commutes with scaling the vector. */
  lemma HomogeneousY(m: Mat4, p: Vec4, s: real)
    ensures Transform(m, Scale4(p, s)).y == Transform(m, p).y * s
  {
    TransformScaledComponents(m, p, s);
    TransformComponents(m, p);
    ScaledRowY(Transform(m, Scale4(p, s)).y, Transform(m, p).y, m, p, s);
  }

  /** Row z of the image of s*p, multiplied out, is s times row z of the
      image of p; stated over plain reals so that no function term is in sight. */
  lemma ScaledRowZ(a: real, b: real, m: Mat4, p: Vec4, s: real)
    requires a == m.v0.z * (p.x * s) + m.v1.z * (p.y * s) + m.v2.z * (p.z * s) + m.v3.z * (p.w * s)
    requires b == m.v0.z * p.x + m.v1.z * p.y + m.v2.z * p.z + m.v3.z * p.w
    ensures a == b * s
  {
  }

  /** Component z of `transform(vec4)` commutes with scaling the vector. */
  lemma HomogeneousZ(m: Mat4, p: Vec4, s: real)
    ensures Transform(m, Scale4(p, s)).z == Transform(m, p).z * s
  {
    TransformScaledComponents(m, p, s);
    TransformComponents(m, p);
    ScaledRowZ(Transform(m, Scale4(p, s)).z, Transform(m, p).z, m, p, s);
  }

  /** Row w of the image of s*p, multiplied out, is s times row w of the
      image of p; stated over plain reals so that no function term is in sight. */
  lemma ScaledRowW(a: real, b: real, m: Mat4, p: Vec4, s: real)
    requires a == m.v0.w * (p.x * s) + m.v1.w * (p.y * s) + m.v2.w * (p.z * s) + m.v3.w * (p.w * s)
    requires b == m.v0.w * p.x + m.v1.w * p.y + m.v2.w * p.z + m.v3.w * p.w
    ensures a == b * s
  {
  }

  /** Component w of `transform(vec4)` commutes with scaling the vector. */
  lemma HomogeneousW(m: Mat4, p: Vec4, s: real)
    ensures Transform(m, Scale4(p, s)).w == Transform(m, p).w * s
  {
    TransformScaledComponents(m, p, s);
    TransformComponents(m, p);
    ScaledRowW(Transform(m, Scale4(p, s)).w, Transform(m, p).w, m, p, s);
  }

  /** `transform(vec4)` commutes with scaling the vector. */
  lemma TransformHomogeneous(m: Mat4, p: Vec4, s: real)
    ensures Transform(m, Scale4(p, s)) == Scale4(Transform(m, p), s)
  {
    HomogeneousX(m, p, s);
    HomogeneousY(m, p, s);
    HomogeneousZ(m, p, s);
    HomogeneousW(m, p, s);
  }

  /** Applying a*b is applying b, then a: column j of a*b is a applied to
      column j of b, and `transform` is linear. */
  lemma MulTransform(a: Mat4, b: Mat4, v: Vec4)
    ensures Transform(Mul(a, b), v) == Transform(a, Transform(b, v))
  {
    var s0, s1, s2, s3 := Scale4(b.v0, v.x), Scale4(b.v1, v.y), Scale4(b.v2, v.z), Scale4(b.v3, v.w);
    TransformAdditive(a, Add4(Add4(s0, s1), s2), s3);
    TransformAdditive(a, Add4(s0, s1), s2);
    TransformAdditive(a, s0, s1);
    TransformHomogeneous(a, b.v0, v.x);
    TransformHomogeneous(a, b.v1, v.y);
    TransformHomogeneous(a, b.v2, v.z);
    TransformHomogeneous(a, b.v3, v.w);
  }

  /** The identity is a right unit of the product. */
  lemma MulIdentityRight(m: Mat4)
    ensures Mul(m, Identity()) == m
  {
    TransformBasis(m);
    assert Identity() == Mat4(Vec4(1.0, 0.0, 0.0, 0.0), Vec4(0.0, 1.0, 0.0, 0.0), Vec4(0.0, 0.0, 1.0, 0.0), Vec4(0.0, 0.0, 0.0, 1.0));
  }

  /** The identity is a left unit of the product. */
  lemma MulIdentityLeft(m: Mat4)
    ensures Mul(Identity(), m) == m
  {
    IdentityTransform(m.v0);
    IdentityTransform(m.v1);
    IdentityTransform(m.v2);
    IdentityTransform(m.v3);
  }

  /** m applied to the j-th unit vector is column j. */
  lemma TransformBasis(m: Mat4)
    ensures Transform(m, Vec4(1.0, 0.0, 0.0, 0.0)) == m.v0
    ensures Transform(m, Vec4(0.0, 1.0, 0.0, 0.0)) == m.v1
    ensures Transform(m, Vec4(0.0, 0.0, 1.0, 0.0)) == m.v2
    ensures Transform(m, Vec4(0.0, 0.0, 0.0, 1.0)) == m.v3
  {
    var o := Vec4(0.0, 0.0, 0.0, 0.0);
    assert Scale4(m.v0, 1.0) == m.v0 && Scale4(m.v1, 1.0) == m.v1;
    assert Scale4(m.v2, 1.0) == m.v2 && Scale4(m.v3, 1.0) == m.v3;
    assert Scale4(m.v0, 0.0) == o && Scale4(m.v1, 0.0) == o;
    assert Scale4(m.v2, 0.0) == o && Scale4(m.v3, 0.0) == o;
  }

  /** The identity leaves every four-vector unchanged. */
  lemma IdentityTransform(p: Vec4)
    ensures Transform(Identity(), p) == p
  {
  }

  /** `Math::isZero(x, eps)`: |x| <= eps. */
  predicate IsZero(x: real, eps: real) {
    -eps <= x <= eps
  }

  /** `DET3`: the 3x3 determinant of (m0 m1 m2; m3 m4 m5; m6 m7 m8). */
  function Det3(m0: real, m1: real, m2: real, m3: real, m4: real, m5: real, m6: real, m7: real, m8: real): real {
    m0 * (m4 * m8 - m5 * m7) - m1 * (m3 * m8 - m5 * m6) + m2 * (m3 * m7 - m4 * m6)
  }

  /** The determinant as `invert` computes it, a00*b00 + a10*b01 + a20*b02 +
      a30*b03, where a_ij is component j of column i. */
  function Det(m: Mat4): real {
    var a00, a01, a02, a03 := m.v0.x, m.v0.y, m.v0.z, m.v0.w;
    var a10, a11, a12, a13 := m.v1.x, m.v1.y, m.v1.z, m.v1.w;
    var a20, a21, a22, a23 := m.v2.x, m.v2.y, m.v2.z, m.v2.w;
    var a30, a31, a32, a33 := m.v3.x, m.v3.y, m.v3.z, m.v3.w;
    var b00 := Det3(a11, a21, a31, a12, a22, a32, a13, a23, a33);
    var b01 := -Det3(a01, a21, a31, a02, a22, a32, a03, a23, a33);
    var b02 := Det3(a01, a11, a31, a02, a12, a32, a03, a13, a33);
    var b03 := -Det3(a01, a11, a21, a02, a12, a22, a03, a13, a23);
    a00 * b00 + a10 * b01 + a20 * b02 + a30 * b03
  }

  /** The cofactors b_ij that `invert` stores, column i holding b_i0..b_i3. */
  function Adjugate(m: Mat4): Mat4 {
    var a00, a01, a02, a03 := m.v0.x, m.v0.y, m.v0.z, m.v0.w;
    var a10, a11, a12, a13 := m.v1.x, m.v1.y, m.v1.z, m.v1.w;
    var a20, a21, a22, a23 := m.v2.x, m.v2.y, m.v2.z, m.v2.w;
    var a30, a31, a32, a33 := m.v3.x, m.v3.y, m.v3.z, m.v3.w;
    Mat4(Vec4(Det3(a11, a21, a31, a12, a22, a32, a13, a23, a33),
              -Det3(a01, a21, a31, a02, a22, a32, a03, a23, a33),
              Det3(a01, a11, a31, a02, a12, a32, a03, a13, a33),
              -Det3(a01, a11, a21, a02, a12, a22, a03, a13, a23)),
         Vec4(-Det3(a10, a20, a30, a12, a22, a32, a13, a23, a33),
              Det3(a00, a20, a30, a02, a22, a32, a03, a23, a33),
              -Det3(a00, a10, a30, a02, a12, a32, a03, a13, a33),
              Det3(a00, a10, a20, a02, a12, a22, a03, a13, a23)),
         Vec4(Det3(a10, a20, a30, a11, a21, a31, a13, a23, a33),
              -Det3(a00, a20, a30, a01, a21, a31, a03, a23, a33),
              Det3(a00, a10, a30, a01, a11, a31, a03, a13, a33),
              -Det3(a00, a10, a20, a01, a11, a21, a03, a13, a23)),
         Vec4(-Det3(a10, a20, a30, a11, a21, a31, a12, a22, a32),
              Det3(a00, a20, a30, a01, a21, a31, a02, a22, a32),
              -Det3(a00, a10, a30, a01, a11, a31, a02, a12, a32),
              Det3(a00, a10, a20, a01, a11, a21, a02, a12, a22)))
  }

  /** `operator*(real)`: every column scaled by s. */
  function Scaled(m: Mat4, s: real): Mat4 {
    Mat4(Scale4(m.v0, s), Scale4(m.v1, s), Scale4(m.v2, s), Scale4(m.v3, s))
  }

  /** `invert(eps)`: the success flag and the matrix afterwards.  When the
      determinant is within eps of zero it fails and leaves m unchanged;
      otherwise it stores the cofactors times 1/determinant.  The tolerance
      is the machine epsilon by default, so it is never negative. */
  function Invert(m: Mat4, eps: real): (r: (bool, Mat4))
    requires eps >= 0.0
    ensures r.0 <==> !IsZero(Det(m), eps)
    ensures !r.0 ==> r.1 == m
  {
    var d := Det(m);
    if IsZero(d, eps) then (false, m) else (true, Scaled(Adjugate(m), 1.0 / d))
  }

  /** The determinant of s times the identity is s^4. */
  lemma DetScalar(s: real)
    ensures Det(Scalar(s)) == s * s * s * s
  {
  }

  /** The zero matrix is singular for every tolerance: `invert` reports
      failure and the matrix stays zero. */
  lemma InvertZeroFails(eps: real)
    requires eps >= 0.0
    ensures Invert(Zero(), eps) == (false, Zero())
  {
    assert Det(Zero()) == 0.0 by {
      DetScalar(0.0);
    }
  }

  /** With a tolerance below 1 the identity inverts to itself. */
  lemma InvertIdentity(eps: real)
    requires 0.0 <= eps < 1.0
    ensures Invert(Identity(), eps) == (true, Identity())
  {
    DetScalar(1.0);
    assert Adjugate(Identity()) == Identity();
  }

  /** `transform(vec3)`: transforms (p, 1) and divides by w, except that the
      divide is skipped when w is zero within eps (by default the machine
      epsilon, hence non-negative). */
  function TransformPoint(m: Mat4, p: Vec3, eps: real): (r: Vec3)
    requires eps >= 0.0
    ensures var h := Transform(m, Extend(p, 1.0));
      if IsZero(h.w, eps) then r == Truncate(h) else Scale3(r, h.w) == Truncate(h)
  {
    var h := Transform(m, Extend(p, 1.0));
    if IsZero(h.w, eps) then Truncate(h) else Scale3(Truncate(h), 1.0 / h.w)
  }

  /** `transform3x4`: the first three rows applied to (p, 1); the fourth row
      is never read. */
  function Transform3x4(m: Mat4, p: Vec3): (r: Vec3)
    ensures r == Truncate(Transform(m, Extend(p, 1.0)))
  {
    Vec3(m.v0.x * p.x + m.v1.x * p.y + m.v2.x * p.z + m.v3.x,
         m.v0.y * p.x + m.v1.y * p.y + m.v2.y * p.z + m.v3.y,
         m.v0.z * p.x + m.v1.z * p.y + m.v2.z * p.z + m.v3.z)
  }

  /** The identity leaves every point unchanged under `transform3x4`. */
  lemma IdentityFixesPoints(p: Vec3)
    ensures Transform3x4(Identity(), p) == p
  {
  }

  /** A matrix whose fourth row is (0, 0, 0, 1). */
  predicate IsAffine(m: Mat4) {
    m.v0.w == 0.0 && m.v1.w == 0.0 && m.v2.w == 0.0 && m.v3.w == 1.0
  }

  /** On an affine matrix the projective and the affine point transforms agree. */
  lemma AffineTransformsAgree(m: Mat4, p: Vec3, eps: real)
    requires IsAffine(m) && 0.0 <= eps < 1.0
    ensures TransformPoint(m, p, eps) == Transform3x4(m, p)
  {
    TransformComponents(m, Extend(p, 1.0));
  }

  /** The fourth row does not influence `transform3x4`. */
  lemma Transform3x4IgnoresFourthRow(m: Mat4, n: Mat4, p: Vec3)
    requires Truncate(m.v0) == Truncate(n.v0) && Truncate(m.v1) == Truncate(n.v1)
    requires Truncate(m.v2) == Truncate(n.v2) && Truncate(m.v3) == Truncate(n.v3)
    ensures Transform3x4(m, p) == Transform3x4(n, p)
  {
  }

  /** `transform3x4` evaluated with IEEE arithmetic on an extended point,
      adding its four terms in the order the C++ expression does. */
  function Transform3x4E(m: Mat4, p: Vec3E): Vec3E {
    Vec3E(E.Add(E.Add(E.Add(E.Mul(E.Fin(m.v0.x), p.x), E.Mul(E.Fin(m.v1.x), p.y)), E.Mul(E.Fin(m.v2.x), p.z)), E.Fin(m.v3.x)),
          E.Add(E.Add(E.Add(E.Mul(E.Fin(m.v0.y), p.x), E.Mul(E.Fin(m.v1.y), p.y)), E.Mul(E.Fin(m.v2.y), p.z)), E.Fin(m.v3.y)),
          E.Add(E.Add(E.Add(E.Mul(E.Fin(m.v0.z), p.x), E.Mul(E.Fin(m.v1.z), p.y)), E.Mul(E.Fin(m.v2.z), p.z)), E.Fin(m.v3.z)))
  }

  /** One row of `transform3x4` on finite values: IEEE and exact
      arithmetic agree.  Stated over the row's value e and the exact value
      t, so that no product is formed from the arguments. */
  lemma FiniteRow(a: real, b: real, c: real, d: real, x: real, y: real, z: real, e: E.Ext, t: real)
    requires e == E.Add(E.Add(E.Add(E.Mul(E.Fin(a), E.Fin(x)), E.Mul(E.Fin(b), E.Fin(y))), E.Mul(E.Fin(c), E.Fin(z))), E.Fin(d))
    requires t == a * x + b * y + c * z + d
    ensures e == E.Fin(t)
  {
  }

  /** On a finite point the IEEE transform is the exact one. */
  lemma Transform3x4EFinite(m: Mat4, p: Vec3E)
    requires IsFinite(p)
    ensures Transform3x4E(m, p) == Lift(Transform3x4(m, Lower(p)))
  {
    var u := Transform3x4E(m, p);
    var v := Transform3x4(m, Lower(p));
    assert p == Vec3E(E.Fin(p.x.r), E.Fin(p.y.r), E.Fin(p.z.r));
    FiniteRow(m.v0.x, m.v1.x, m.v2.x, m.v3.x, p.x.r, p.y.r, p.z.r, u.x, v.x);
    FiniteRow(m.v0.y, m.v1.y, m.v2.y, m.v3.y, p.x.r, p.y.r, p.z.r, u.y, v.y);
    FiniteRow(m.v0.z, m.v1.z, m.v2.z, m.v3.z, p.x.r, p.y.r, p.z.r, u.z, v.z);
  }

  /** `transformVector`: the first three columns combined; v3 is not read. */
  function TransformVector(m: Mat4, v: Vec3): Vec3 {
    Add3(Add3(Scale3(Truncate(m.v0), v.x), Scale3(Truncate(m.v1), v.y)), Scale3(Truncate(m.v2), v.z))
  }

  /** A vector is transformed as (v, 0), so the translation column plays no
      part. */
  lemma TransformVectorIsLinearPart(m: Mat4, v: Vec3)
    ensures TransformVector(m, v) == Truncate(Transform(m, Extend(v, 0.0)))
  {
    TransformComponents(m, Extend(v, 0.0));
  }

  /** `transformVector` maps the difference of two points to the difference
      of their `transform3x4` images: v3 cancels out. */
  lemma TransformVectorOfDifference(m: Mat4, p: Vec3, q: Vec3)
    ensures TransformVector(m, Sub3(p, q)) == Sub3(Transform3x4(m, p), Transform3x4(m, q))
  {
    var d := Sub3(p, q);
    TransformVectorIsLinearPart(m, d);
    assert Extend(p, 1.0) == Add4(Extend(d, 0.0), Extend(q, 1.0));
    TransformAdditive(m, Extend(d, 0.0), Extend(q, 1.0));
  }

  /** `r * p` for a 3x3 matrix: the combination of its columns. */
  function Apply3(r: Mat3, p: Vec3): Vec3 {
    Add3(Add3(Scale3(r.c0, p.x), Scale3(r.c1, p.y)), Scale3(r.c2, p.z))
  }

  /** `set(mat3 r, p)`: the columns of r with w = 0, then the column (p, 1).
      The conversion of a 3-vector column to a 4-vector is taken to set w = 0. */
  function FromRotation(r: Mat3, p: Vec3): Mat4 {
    Mat4(Extend(r.c0, 0.0), Extend(r.c1, 0.0), Extend(r.c2, 0.0), Extend(p, 1.0))
  }

  /** `set(r, p)` builds an affine map: apply r, then translate by p. */
  lemma FromRotationMaps(r: Mat3, p: Vec3, q: Vec3)
    ensures IsAffine(FromRotation(r, p))
    ensures Transform3x4(FromRotation(r, p), q) == Add3(Apply3(r, q), p)
  {
  }

  /** `TRS(p, q, s)`: `set(r, p)` followed by `m[k] *= s_k` for the first
      three columns, so rotation column k is scaled by s_k and the last
      column is (p, 1). */
  function TRS(p: Vec3, r: Mat3, s: Vec3): (m: Mat4)
    ensures m.v0 == Extend(Scale3(r.c0, s.x), 0.0)
    ensures m.v1 == Extend(Scale3(r.c1, s.y), 0.0)
    ensures m.v2 == Extend(Scale3(r.c2, s.z), 0.0)
    ensures m.v3 == Extend(p, 1.0)
  {
    var m := FromRotation(r, p);
    Mat4(Scale4(m.v0, s.x), Scale4(m.v1, s.y), Scale4(m.v2, s.z), m.v3)
  }

  /** The columns of r scaled by the components of s. */
  function ScaleColumns(r: Mat3, s: Vec3): Mat3 {
    Mat3(Scale3(r.c0, s.x), Scale3(r.c1, s.y), Scale3(r.c2, s.z))
  }

  /** Component-wise product of two 3-vectors (the scale step of TRS). */
  function Hadamard(s: Vec3, q: Vec3): Vec3 {
    Vec3(s.x * q.x, s.y * q.y, s.z * q.z)
  }

  /** Scaling the columns of r by s is scaling the argument by s first. */
  lemma ScaleColumnsApply(r: Mat3, s: Vec3, q: Vec3)
    ensures Apply3(ScaleColumns(r, s), q) == Apply3(r, Hadamard(s, q))
  {
    ScaleTwice(r.c0, s.x, q.x);
    ScaleTwice(r.c1, s.y, q.y);
    ScaleTwice(r.c2, s.z, q.z);
    assert Apply3(ScaleColumns(r, s), q)
        == Add3(Add3(Scale3(r.c0, s.x * q.x), Scale3(r.c1, s.y * q.y)), Scale3(r.c2, s.z * q.z));
  }

  lemma ScaleTwice(v: Vec3, a: real, b: real)
    ensures Scale3(Scale3(v, a), b) == Scale3(v, a * b)
  {
  }

  /** TRS is `set(r', p)` for the column-scaled rotation r'. */
  lemma TRSIsFromRotation(p: Vec3, r: Mat3, s: Vec3)
    ensures TRS(p, r, s) == FromRotation(ScaleColumns(r, s), p)
  {
  }

  /** As a map, TRS scales, then rotates, then translates. */
  lemma TRSMaps(p: Vec3, r: Mat3, s: Vec3, q: Vec3)
    ensures Transform3x4(TRS(p, r, s), q) == Add3(Apply3(r, Hadamard(s, q)), p)
  {
    TRSIsFromRotation(p, r, s);
    FromRotationMaps(ScaleColumns(r, s), p, q);
    ScaleColumnsApply(r, s, q);
  }

  /** `rotation(q, p)`: r about the point p, i.e. `set(r, p - r*p)`. */
  function Rotation(r: Mat3, p: Vec3): Mat4 {
    FromRotation(r, Sub3(p, Apply3(r, p)))
  }

  /** The centre of a rotation stays where it is, and directions are
      turned by r alone. */
  lemma RotationFixesCenter(r: Mat3, p: Vec3, v: Vec3)
    ensures Transform3x4(Rotation(r, p), p) == p
    ensures TransformVector(Rotation(r, p), v) == Apply3(r, v)
  {
    FromRotationMaps(r, Sub3(p, Apply3(r, p)), p);
  }

  /** The identity rotation, the 3x3 identity. */
  const IdentityRotation := Mat3(Vec3(1.0, 0.0, 0.0), Vec3(0.0, 1.0, 0.0), Vec3(0.0, 0.0, 1.0))

  /** TRS with zero translation, no rotation and unit scale is the identity. */
  lemma TRSNeutral()
    ensures TRS(Null3, IdentityRotation, Vec3(1.0, 1.0, 1.0)) == Identity()
  {
  }
}
