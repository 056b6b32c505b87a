/** Fixed-size real vectors and matrices, and the determinant identities the
    two-view geometry relies on. Every `double` of the system is a `real` here,
    so these are exact statements, without rounding. */
module LinearAlgebra {

  /** An image point (x, y). */
  datatype Vec2 = Vec2(x: real, y: real)
  {
    /** The homogeneous lift (x, y, 1). */
    function Homogeneous(): Vec3
    {
      Vec3(x, y, 1.0)
    }
  }

  datatype Vec3 = Vec3(x: real, y: real, z: real)
  {
    function At(k: nat): real
      requires k < 3
    {
      if k == 0 then x else if k == 1 then y else z
    }
  }

  /** A homogeneous 3D point, or one row of a 3x4 or 4x4 matrix. */
  datatype Vec4 = Vec4(x: real, y: real, z: real, w: real)
  {
    /** The three entries left after deleting entry k. */
    function Drop(k: nat): Vec3
      requires k < 4
    {
      if k == 0 then Vec3(y, z, w)
      else if k == 1 then Vec3(x, z, w)
      else if k == 2 then Vec3(x, y, w)
      else Vec3(x, y, z)
    }
  }

  /** A 3x3 matrix stored by rows. */
  datatype Mat3 = Mat3(r0: Vec3, r1: Vec3, r2: Vec3)
  {
    function Row(i: nat): Vec3
      requires i < 3
    {
      if i == 0 then r0 else if i == 1 then r1 else r2
    }

    function Col(j: nat): Vec3
      requires j < 3
    {
      Vec3(r0.At(j), r1.At(j), r2.At(j))
    }

    function Transpose(): Mat3
    {
      Mat3(Col(0), Col(1), Col(2))
    }
  }

  /** A 3x4 matrix (a camera projection or an [R|t] block) stored by rows. */
  datatype Mat34 = Mat34(r0: Vec4, r1: Vec4, r2: Vec4)
  {
    function Row(i: nat): Vec4
      requires i < 3
    {
      if i == 0 then r0 else if i == 1 then r1 else r2
    }
  }

  /** A 4x4 matrix stored by rows. */
  datatype Mat4 = Mat4(r0: Vec4, r1: Vec4, r2: Vec4, r3: Vec4)

  const Zero4: Vec4 := Vec4(0.0, 0.0, 0.0, 0.0)

  const Identity3: Mat3 := Mat3(Vec3(1.0, 0.0, 0.0), Vec3(0.0, 1.0, 0.0), Vec3(0.0, 0.0, 1.0))

  function Dot3(a: Vec3, b: Vec3): real
  {
    a.x * b.x + a.y * b.y + a.z * b.z
  }

  function Dot4(a: Vec4, b: Vec4): real
  {
    a.x * b.x + a.y * b.y + a.z * b.z + a.w * b.w
  }

  function Scale3(k: real, v: Vec3): Vec3
  {
    Vec3(k * v.x, k * v.y, k * v.z)
  }

  function Add3(u: Vec3, v: Vec3): Vec3
  {
    Vec3(u.x + v.x, u.y + v.y, u.z + v.z)
  }

  function Neg3(v: Vec3): Vec3
  {
    Vec3(-v.x, -v.y, -v.z)
  }

  function Scale4(k: real, v: Vec4): Vec4
  {
    Vec4(k * v.x, k * v.y, k * v.z, k * v.w)
  }

  function Sub4(u: Vec4, v: Vec4): Vec4
  {
    Vec4(u.x - v.x, u.y - v.y, u.z - v.z, u.w - v.w)
  }

  function MatVec3(m: Mat3, v: Vec3): Vec3
  {
    Vec3(Dot3(m.r0, v), Dot3(m.r1, v), Dot3(m.r2, v))
  }

  function MatMul3(a: Mat3, b: Mat3): Mat3
  {
    Mat3(Vec3(Dot3(a.r0, b.Col(0)), Dot3(a.r0, b.Col(1)), Dot3(a.r0, b.Col(2))),
         Vec3(Dot3(a.r1, b.Col(0)), Dot3(a.r1, b.Col(1)), Dot3(a.r1, b.Col(2))),
         Vec3(Dot3(a.r2, b.Col(0)), Dot3(a.r2, b.Col(1)), Dot3(a.r2, b.Col(2))))
  }

  function MatVec34(m: Mat34, v: Vec4): Vec3
  {
    Vec3(Dot4(m.r0, v), Dot4(m.r1, v), Dot4(m.r2, v))
  }

  function MatVec4(m: Mat4, v: Vec4): Vec4
  {
    Vec4(Dot4(m.r0, v), Dot4(m.r1, v), Dot4(m.r2, v), Dot4(m.r3, v))
  }

  /** The bilinear form u^t * m * v. */
  function Bilinear(u: Vec3, m: Mat3, v: Vec3): real
  {
    Dot3(u, MatVec3(m, v))
  }

  /** Determinant of the 3x3 matrix with rows a, b, c (Leibniz expansion). */
  function Det3(a: Vec3, b: Vec3, c: Vec3): real
  {
    a.x * b.y * c.z + a.y * b.z * c.x + a.z * b.x * c.y
    - a.z * b.y * c.x - a.y * b.x * c.z - a.x * b.z * c.y
  }

  /** Determinant of the 4x4 matrix with rows a, b, c, d (Leibniz expansion
      over the 24 permutations). */
  function Det4(a: Vec4, b: Vec4, c: Vec4, d: Vec4): real
  {
    a.x * b.y * c.z * d.w - a.x * b.y * c.w * d.z - a.x * b.z * c.y * d.w
    + a.x * b.z * c.w * d.y + a.x * b.w * c.y * d.z - a.x * b.w * c.z * d.y
    - a.y * b.x * c.z * d.w + a.y * b.x * c.w * d.z + a.y * b.z * c.x * d.w
    - a.y * b.z * c.w * d.x - a.y * b.w * c.x * d.z + a.y * b.w * c.z * d.x
    + a.z * b.x * c.y * d.w - a.z * b.x * c.w * d.y - a.z * b.y * c.x * d.w
    + a.z * b.y * c.w * d.x + a.z * b.w * c.x * d.y - a.z * b.w * c.y * d.x
    - a.w * b.x * c.y * d.z + a.w * b.x * c.z * d.y + a.w * b.y * c.x * d.z
    - a.w * b.y * c.z * d.x - a.w * b.z * c.x * d.y + a.w * b.z * c.y * d.x
  }

  /** Swapping the last two rows flips the sign of the determinant. */
  lemma Det4SwapLast(a: Vec4, b: Vec4, c: Vec4, d: Vec4)
    ensures Det4(a, b, d, c) == -Det4(a, b, c, d)
  {
  }

  /** Exchanging the first pair of rows with the second pair is an even
      permutation: the determinant is unchanged. */
  lemma Det4SwapPairs(a: Vec4, b: Vec4, c: Vec4, d: Vec4)
    ensures Det4(c, d, a, b) == Det4(a, b, c, d)
  {
  }

  /** Laplace expansion of a 4x4 determinant along one column: the entry of
      each row in that column times the 3x3 minor of the other rows, with
      alternating signs. Minors drop the column from every row. */
  function WithoutX(v: Vec4): Vec3
  {
    Vec3(v.y, v.z, v.w)
  }

  lemma ExpandX(a: Vec4, b: Vec4, c: Vec4, d: Vec4)
    ensures Det4(a, b, c, d)
         == 1.0 * (a.x * Det3(WithoutX(b), WithoutX(c), WithoutX(d))
                 - b.x * Det3(WithoutX(a), WithoutX(c), WithoutX(d))
                 + c.x * Det3(WithoutX(a), WithoutX(b), WithoutX(d))
                 - d.x * Det3(WithoutX(a), WithoutX(b), WithoutX(c)))
  {
  }

  function WithoutY(v: Vec4): Vec3
  {
    Vec3(v.x, v.z, v.w)
  }

  lemma ExpandY(a: Vec4, b: Vec4, c: Vec4, d: Vec4)
    ensures Det4(a, b, c, d)
         == -1.0 * (a.y * Det3(WithoutY(b), WithoutY(c), WithoutY(d))
                 - b.y * Det3(WithoutY(a), WithoutY(c), WithoutY(d))
                 + c.y * Det3(WithoutY(a), WithoutY(b), WithoutY(d))
                 - d.y * Det3(WithoutY(a), WithoutY(b), WithoutY(c)))
  {
  }

  function WithoutZ(v: Vec4): Vec3
  {
    Vec3(v.x, v.y, v.w)
  }

  lemma ExpandZ(a: Vec4, b: Vec4, c: Vec4, d: Vec4)
    ensures Det4(a, b, c, d)
         == 1.0 * (a.z * Det3(WithoutZ(b), WithoutZ(c), WithoutZ(d))
                 - b.z * Det3(WithoutZ(a), WithoutZ(c), WithoutZ(d))
                 + c.z * Det3(WithoutZ(a), WithoutZ(b), WithoutZ(d))
                 - d.z * Det3(WithoutZ(a), WithoutZ(b), WithoutZ(c)))
  {
  }

  function WithoutW(v: Vec4): Vec3
  {
    Vec3(v.x, v.y, v.z)
  }

  lemma ExpandW(a: Vec4, b: Vec4, c: Vec4, d: Vec4)
    ensures Det4(a, b, c, d)
         == -1.0 * (a.w * Det3(WithoutW(b), WithoutW(c), WithoutW(d))
                 - b.w * Det3(WithoutW(a), WithoutW(c), WithoutW(d))
                 + c.w * Det3(WithoutW(a), WithoutW(b), WithoutW(d))
                 - d.w * Det3(WithoutW(a), WithoutW(b), WithoutW(c)))
  {
  }

  /** The scalar skeleton of the five-row identity: once every determinant
      is expanded along the same column, the terms cancel in pairs. */
  lemma CramerCore(a: real, b: real, p: real, q: real, r: real, sign: real,
                   mPQR: real, mBQR: real, mBPR: real, mBPQ: real, mAQR: real,
                   mAPR: real, mAPQ: real, mABR: real, mABQ: real, mABP: real,
                   dBPQR: real, dAPQR: real, dABQR: real, dABPR: real, dABPQ: real)
    requires dBPQR == sign * (b * mPQR - p * mBQR + q * mBPR - r * mBPQ)
    requires dAPQR == sign * (a * mPQR - p * mAQR + q * mAPR - r * mAPQ)
    requires dABQR == sign * (a * mBQR - b * mAQR + q * mABR - r * mABQ)
    requires dABPR == sign * (a * mBPR - b * mAPR + p * mABR - r * mABP)
    requires dABPQ == sign * (a * mBPQ - b * mAPQ + p * mABQ - q * mABP)
    ensures a * dBPQR - b * dAPQR + p * dABQR - q * dABPR + r * dABPQ == 0.0
  {
  }

  /** Five rows of length four: for each column, the alternating sum of the
      rows' entries in that column times the determinant of the other four
      rows vanishes (it is the expansion of a 5x5 determinant whose first
      column repeats that column). One lemma per column. */
  lemma RepeatedColumnX(a: Vec4, b: Vec4, p: Vec4, q: Vec4, r: Vec4)
    ensures a.x * Det4(b, p, q, r) - b.x * Det4(a, p, q, r) + p.x * Det4(a, b, q, r)
            - q.x * Det4(a, b, p, r) + r.x * Det4(a, b, p, q) == 0.0
  {
    ExpandX(b, p, q, r);
    ExpandX(a, p, q, r);
    ExpandX(a, b, q, r);
    ExpandX(a, b, p, r);
    ExpandX(a, b, p, q);
    CramerCore(a.x, b.x, p.x, q.x, r.x, 1.0,
               Det3(WithoutX(p), WithoutX(q), WithoutX(r)), Det3(WithoutX(b), WithoutX(q), WithoutX(r)),
               Det3(WithoutX(b), WithoutX(p), WithoutX(r)), Det3(WithoutX(b), WithoutX(p), WithoutX(q)),
               Det3(WithoutX(a), WithoutX(q), WithoutX(r)), Det3(WithoutX(a), WithoutX(p), WithoutX(r)),
               Det3(WithoutX(a), WithoutX(p), WithoutX(q)), Det3(WithoutX(a), WithoutX(b), WithoutX(r)),
               Det3(WithoutX(a), WithoutX(b), WithoutX(q)), Det3(WithoutX(a), WithoutX(b), WithoutX(p)),
               Det4(b, p, q, r), Det4(a, p, q, r), Det4(a, b, q, r), Det4(a, b, p, r), Det4(a, b, p, q));
  }

  lemma RepeatedColumnY(a: Vec4, b: Vec4, p: Vec4, q: Vec4, r: Vec4)
    ensures a.y * Det4(b, p, q, r) - b.y * Det4(a, p, q, r) + p.y * Det4(a, b, q, r)
            - q.y * Det4(a, b, p, r) + r.y * Det4(a, b, p, q) == 0.0
  {
    ExpandY(b, p, q, r);
    ExpandY(a, p, q, r);
    ExpandY(a, b, q, r);
    ExpandY(a, b, p, r);
    ExpandY(a, b, p, q);
    CramerCore(a.y, b.y, p.y, q.y, r.y, -1.0,
               Det3(WithoutY(p), WithoutY(q), WithoutY(r)), Det3(WithoutY(b), WithoutY(q), WithoutY(r)),
               Det3(WithoutY(b), WithoutY(p), WithoutY(r)), Det3(WithoutY(b), WithoutY(p), WithoutY(q)),
               Det3(WithoutY(a), WithoutY(q), WithoutY(r)), Det3(WithoutY(a), WithoutY(p), WithoutY(r)),
               Det3(WithoutY(a), WithoutY(p), WithoutY(q)), Det3(WithoutY(a), WithoutY(b), WithoutY(r)),
               Det3(WithoutY(a), WithoutY(b), WithoutY(q)), Det3(WithoutY(a), WithoutY(b), WithoutY(p)),
               Det4(b, p, q, r), Det4(a, p, q, r), Det4(a, b, q, r), Det4(a, b, p, r), Det4(a, b, p, q));
  }

  lemma RepeatedColumnZ(a: Vec4, b: Vec4, p: Vec4, q: Vec4, r: Vec4)
    ensures a.z * Det4(b, p, q, r) - b.z * Det4(a, p, q, r) + p.z * Det4(a, b, q, r)
            - q.z * Det4(a, b, p, r) + r.z * Det4(a, b, p, q) == 0.0
  {
    ExpandZ(b, p, q, r);
    ExpandZ(a, p, q, r);
    ExpandZ(a, b, q, r);
    ExpandZ(a, b, p, r);
    ExpandZ(a, b, p, q);
    CramerCore(a.z, b.z, p.z, q.z, r.z, 1.0,
               Det3(WithoutZ(p), WithoutZ(q), WithoutZ(r)), Det3(WithoutZ(b), WithoutZ(q), WithoutZ(r)),
               Det3(WithoutZ(b), WithoutZ(p), WithoutZ(r)), Det3(WithoutZ(b), WithoutZ(p), WithoutZ(q)),
               Det3(WithoutZ(a), WithoutZ(q), WithoutZ(r)), Det3(WithoutZ(a), WithoutZ(p), WithoutZ(r)),
               Det3(WithoutZ(a), WithoutZ(p), WithoutZ(q)), Det3(WithoutZ(a), WithoutZ(b), WithoutZ(r)),
               Det3(WithoutZ(a), WithoutZ(b), WithoutZ(q)), Det3(WithoutZ(a), WithoutZ(b), WithoutZ(p)),
               Det4(b, p, q, r), Det4(a, p, q, r), Det4(a, b, q, r), Det4(a, b, p, r), Det4(a, b, p, q));
  }

  lemma RepeatedColumnW(a: Vec4, b: Vec4, p: Vec4, q: Vec4, r: Vec4)
    ensures a.w * Det4(b, p, q, r) - b.w * Det4(a, p, q, r) + p.w * Det4(a, b, q, r)
            - q.w * Det4(a, b, p, r) + r.w * Det4(a, b, p, q) == 0.0
  {
    ExpandW(b, p, q, r);
    ExpandW(a, p, q, r);
    ExpandW(a, b, q, r);
    ExpandW(a, b, p, r);
    ExpandW(a, b, p, q);
    CramerCore(a.w, b.w, p.w, q.w, r.w, -1.0,
               Det3(WithoutW(p), WithoutW(q), WithoutW(r)), Det3(WithoutW(b), WithoutW(q), WithoutW(r)),
               Det3(WithoutW(b), WithoutW(p), WithoutW(r)), Det3(WithoutW(b), WithoutW(p), WithoutW(q)),
               Det3(WithoutW(a), WithoutW(q), WithoutW(r)), Det3(WithoutW(a), WithoutW(p), WithoutW(r)),
               Det3(WithoutW(a), WithoutW(p), WithoutW(q)), Det3(WithoutW(a), WithoutW(b), WithoutW(r)),
               Det3(WithoutW(a), WithoutW(b), WithoutW(q)), Det3(WithoutW(a), WithoutW(b), WithoutW(p)),
               Det4(b, p, q, r), Det4(a, p, q, r), Det4(a, b, q, r), Det4(a, b, p, r), Det4(a, b, p, q));
  }

  /** The same identity with every k-th entry replaced by a linear
      functional X applied to the row. */
  lemma FiveRows(a: Vec4, b: Vec4, p: Vec4, q: Vec4, r: Vec4, X: Vec4)
    ensures Dot4(a, X) * Det4(b, p, q, r) - Dot4(b, X) * Det4(a, p, q, r) + Dot4(p, X) * Det4(a, b, q, r)
            - Dot4(q, X) * Det4(a, b, p, r) + Dot4(r, X) * Det4(a, b, p, q) == 0.0
  {
    RepeatedColumnX(a, b, p, q, r);
    RepeatedColumnY(a, b, p, q, r);
    RepeatedColumnZ(a, b, p, q, r);
    RepeatedColumnW(a, b, p, q, r);
  }

  /** Multiplying matrices composes their actions on vectors. */
  lemma MatMulAction(a: Mat3, b: Mat3, v: Vec3)
    ensures MatVec3(MatMul3(a, b), v) == MatVec3(a, MatVec3(b, v))
  {
  }

  lemma MatVecAdd(m: Mat3, u: Vec3, v: Vec3)
    ensures MatVec3(m, Add3(u, v)) == Add3(MatVec3(m, u), MatVec3(m, v))
  {
  }

  lemma DotScaleSub(k: real, u: Vec4, v: Vec4, X: Vec4)
    ensures Dot4(Sub4(Scale4(k, u), v), X) == k * Dot4(u, X) - Dot4(v, X)
  {
  }

  /** A residual k * c - a vanishes exactly when a == c * k. */
  lemma ResidualZero(k: real, a: real, c: real)
    ensures k * c - a == 0.0 <==> a == c * k
  {
  }

  lemma NonZeroProduct(a: real, b: real)
    requires a != 0.0 && b != 0.0
    ensures a * b != 0.0
  {
  }

  lemma ZeroProduct(a: real, b: real)
    requires a * b == 0.0 && a != 0.0
    ensures b == 0.0
  {
  }

  lemma DotScaleLeft(k: real, u: Vec3, v: Vec3)
    ensures Dot3(Scale3(k, u), v) == k * Dot3(u, v)
  {
  }

  lemma DotScaleRight(k: real, u: Vec3, v: Vec3)
    ensures Dot3(u, Scale3(k, v)) == k * Dot3(u, v)
  {
  }

  lemma MatVecScale(m: Mat3, k: real, v: Vec3)
    ensures MatVec3(m, Scale3(k, v)) == Scale3(k, MatVec3(m, v))
  {
    DotScaleRight(k, m.r0, v);
    DotScaleRight(k, m.r1, v);
    DotScaleRight(k, m.r2, v);
  }

  lemma IdentityColumns()
    ensures Identity3.Col(0) == Vec3(1.0, 0.0, 0.0)
    ensures Identity3.Col(1) == Vec3(0.0, 1.0, 0.0)
    ensures Identity3.Col(2) == Vec3(0.0, 0.0, 1.0)
  {
  }

  lemma IdentityTranspose()
    ensures Identity3.Transpose() == Identity3
  {
    IdentityColumns();
  }

  lemma IdentityProduct()
    ensures MatMul3(Identity3, Identity3) == Identity3
  {
    IdentityColumns();
  }

  lemma IdentityAction(v: Vec3)
    ensures MatVec3(Identity3, v) == v
  {
  }

  lemma ZeroImage(m: Mat3)
    ensures MatVec3(m, Vec3(0.0, 0.0, 0.0)) == Vec3(0.0, 0.0, 0.0)
  {
  }

  lemma MulAssoc(a: real, b: real, c: real)
    ensures a * (b * c) == a * b * c
  {
  }
}
