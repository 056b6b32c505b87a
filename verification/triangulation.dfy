/** The algebraic parts of two-view triangulation: the linear (DLT) system
    whose nullspace is the triangulated point, and the fundamental matrix of
    two projection matrices built from 4x4 determinants. The singular value
    decomposition that extracts the nullspace is outside this model. */
module Triangulation {
  import opened LinearAlgebra

  /** X projects through the 3x4 matrix `pose` onto the image point `point`
      with homogeneous weight w: pose * X == w * (x, y, 1). */
  predicate ProjectsTo(pose: Mat34, X: Vec4, point: Vec2, w: real)
  {
    MatVec34(pose, X) == Scale3(w, point.Homogeneous())
  }

  // ---------------------------------------------------------------------
  // Direct linear transform

  /** One row of the DLT system: coord * pose.row(2) - pose.row(k). */
  function DltRow(coord: real, pose: Mat34, k: nat): Vec4
    requires k < 2
  {
    Sub4(Scale4(coord, pose.r2), pose.Row(k))
  }

  /** Rows 0 and 1 come from the first view (x then y), rows 2 and 3 from
      the second. */
  function DesignMatrix(pose1: Mat34, pose2: Mat34, point1: Vec2, point2: Vec2): Mat4
  {
    Mat4(DltRow(point1.x, pose1, 0), DltRow(point1.y, pose1, 1),
         DltRow(point2.x, pose2, 0), DltRow(point2.y, pose2, 1))
  }

  /** The two rows of one view, evaluated at X, are the residuals of that
      view's image coordinates: coordinate times projective depth, minus the
      projected coordinate. */
  lemma ViewResiduals(pose: Mat34, point: Vec2, X: Vec4)
    ensures Dot4(DltRow(point.x, pose, 0), X) == point.x * Dot4(pose.r2, X) - Dot4(pose.r0, X)
    ensures Dot4(DltRow(point.y, pose, 1), X) == point.y * Dot4(pose.r2, X) - Dot4(pose.r1, X)
  {
    DotScaleSub(point.x, pose.r2, pose.r0, X);
    DotScaleSub(point.y, pose.r2, pose.r1, X);
  }

  /** Both rows of one view vanish at X exactly when X projects onto the
      view's image point with weight pose.row(2) . X. */
  lemma ViewNullspace(pose: Mat34, point: Vec2, X: Vec4)
    ensures Dot4(DltRow(point.x, pose, 0), X) == 0.0 && Dot4(DltRow(point.y, pose, 1), X) == 0.0
        <==> ProjectsTo(pose, X, point, Dot4(pose.r2, X))
  {
    ViewResiduals(pose, point, X);
    ResidualZero(point.x, Dot4(pose.r0, X), Dot4(pose.r2, X));
    ResidualZero(point.y, Dot4(pose.r1, X), Dot4(pose.r2, X));
    assert Scale3(Dot4(pose.r2, X), point.Homogeneous())
        == Vec3(Dot4(pose.r2, X) * point.x, Dot4(pose.r2, X) * point.y, Dot4(pose.r2, X));
  }

  /** The nullspace of the design matrix is exactly the set of points that
      project onto both image points, the weight being the projected third
      coordinate. */
  lemma DesignNullspace(pose1: Mat34, pose2: Mat34, point1: Vec2, point2: Vec2, X: Vec4)
    ensures MatVec4(DesignMatrix(pose1, pose2, point1, point2), X) == Zero4
        <==> ProjectsTo(pose1, X, point1, Dot4(pose1.r2, X)) && ProjectsTo(pose2, X, point2, Dot4(pose2.r2, X))
  {
    ViewNullspace(pose1, point1, X);
    ViewNullspace(pose2, point2, X);
  }

  /** A projection with weight w has weight pose.row(2) . X: the third
      homogeneous coordinate of the image point is 1. */
  lemma ProjectionWeight(pose: Mat34, X: Vec4, point: Vec2, w: real)
    requires ProjectsTo(pose, X, point, w)
    ensures w == Dot4(pose.r2, X)
    ensures ProjectsTo(pose, X, point, Dot4(pose.r2, X))
  {
    assert MatVec34(pose, X).z == w * 1.0;
  }

  /** A point that projects exactly onto both image points, with any
      weights, is annihilated by the design matrix. */
  lemma DesignAnnihilatesProjectedPoint(pose1: Mat34, pose2: Mat34, point1: Vec2, point2: Vec2,
                                        X: Vec4, w1: real, w2: real)
    requires ProjectsTo(pose1, X, point1, w1) && ProjectsTo(pose2, X, point2, w2)
    ensures MatVec4(DesignMatrix(pose1, pose2, point1, point2), X) == Zero4
  {
    ProjectionWeight(pose1, X, point1, w1);
    ProjectionWeight(pose2, X, point2, w2);
    DesignNullspace(pose1, pose2, point1, point2, X);
  }

  /** The design matrix TriangulateDLT hands to the SVD, and its status. */
  datatype DltSystem = DltSystem(success: bool, design: Mat4)

  /** TriangulateDLT always reports success; the point it returns is the
      right singular vector of `design` for the smallest singular value. */
  function TriangulateDLT(pose1: Mat34, pose2: Mat34, point1: Vec2, point2: Vec2): (r: DltSystem)
    ensures r.success
    ensures forall X :: MatVec4(r.design, X) == Zero4
                    <==> ProjectsTo(pose1, X, point1, Dot4(pose1.r2, X)) && ProjectsTo(pose2, X, point2, Dot4(pose2.r2, X))
  {
    var design := DesignMatrix(pose1, pose2, point1, point2);
    assert forall X :: MatVec4(design, X) == Zero4
                    <==> ProjectsTo(pose1, X, point1, Dot4(pose1.r2, X)) && ProjectsTo(pose2, X, point2, Dot4(pose2.r2, X)) by {
      forall X
        ensures MatVec4(design, X) == Zero4
            <==> ProjectsTo(pose1, X, point1, Dot4(pose1.r2, X)) && ProjectsTo(pose2, X, point2, Dot4(pose2.r2, X))
      {
        DesignNullspace(pose1, pose2, point1, point2, X);
      }
    }
    DltSystem(true, design)
  }

  // ---------------------------------------------------------------------
  // Fundamental matrix from two projection matrices (Hartley and Zisserman)

  /** The cyclic row pairs (index1[i], index2[i]) of the construction. */
  const Index1: seq<nat> := [1, 2, 0]
  const Index2: seq<nat> := [2, 0, 1]

  /** Entry (r, c): the determinant of two rows of p2 chosen by c stacked on
      two rows of p1 chosen by r. */
  function FundamentalEntry(p1: Mat34, p2: Mat34, r: nat, c: nat): real
    requires r < 3 && c < 3
  {
    Det4(p2.Row(Index1[c]), p2.Row(Index2[c]), p1.Row(Index1[r]), p1.Row(Index2[r]))
  }

  function FundamentalFromProjections(p1: Mat34, p2: Mat34): Mat3
  {
    Mat3(Vec3(FundamentalEntry(p1, p2, 0, 0), FundamentalEntry(p1, p2, 0, 1), FundamentalEntry(p1, p2, 0, 2)),
         Vec3(FundamentalEntry(p1, p2, 1, 0), FundamentalEntry(p1, p2, 1, 1), FundamentalEntry(p1, p2, 1, 2)),
         Vec3(FundamentalEntry(p1, p2, 2, 0), FundamentalEntry(p1, p2, 2, 1), FundamentalEntry(p1, p2, 2, 2)))
  }

  /** Eigen's default (column-major) view of a 12-element array as a 3x4
      matrix: entry (i, j) is element 3 * j + i. */
  function MapMatrix34(a: seq<real>): Mat34
    requires |a| == 12
  {
    Mat34(Vec4(a[0], a[3], a[6], a[9]),
          Vec4(a[1], a[4], a[7], a[10]),
          Vec4(a[2], a[5], a[8], a[11]))
  }

  /** Column-major view of a 9-element array as a 3x3 matrix. */
  function MapMatrix3(a: seq<real>): Mat3
    requires |a| == 9
  {
    Mat3(Vec3(a[0], a[3], a[6]), Vec3(a[1], a[4], a[7]), Vec3(a[2], a[5], a[8]))
  }

  /** The nested loop over (r, c), reusing one 4x4 scratch matrix whose
      lower rows are set per r and upper rows per c, and writing each
      determinant into the column-major output array. */
  method FundamentalMatrixFromProjectionMatrices(pmatrix1: seq<real>, pmatrix2: seq<real>)
    returns (fmatrix: seq<real>)
    requires |pmatrix1| == 12 && |pmatrix2| == 12
    ensures |fmatrix| == 9
    ensures MapMatrix3(fmatrix) == FundamentalFromProjections(MapMatrix34(pmatrix1), MapMatrix34(pmatrix2))
  {
    var projection1 := MapMatrix34(pmatrix1);
    var projection2 := MapMatrix34(pmatrix2);
    fmatrix := [0.0, 0.0, 0.0, 0.0, 0.0, 0.0, 0.0, 0.0, 0.0];
    var row0, row1, row2, row3 := Zero4, Zero4, Zero4, Zero4;
    var r := 0;
    while r < 3
      invariant 0 <= r <= 3 && |fmatrix| == 9
      invariant forall k :: 0 <= k < 9 && k % 3 < r ==> fmatrix[k] == FundamentalEntry(projection1, projection2, k % 3, k / 3)
    {
      row2 := projection1.Row(Index1[r]);
      row3 := projection1.Row(Index2[r]);
      var c := 0;
      while c < 3
        invariant 0 <= c <= 3 && |fmatrix| == 9
        invariant row2 == projection1.Row(Index1[r]) && row3 == projection1.Row(Index2[r])
        invariant forall k :: 0 <= k < 9 && (k % 3 < r || (k % 3 == r && k / 3 < c))
                    ==> fmatrix[k] == FundamentalEntry(projection1, projection2, k % 3, k / 3)
      {
        row0 := projection2.Row(Index1[c]);
        row1 := projection2.Row(Index2[c]);
        fmatrix := fmatrix[3 * c + r := Det4(row0, row1, row2, row3)];
        c := c + 1;
      }
      r := r + 1;
    }
  }

  /** With the projections of p1 read as rows p_0, p_1, p_2:
      sum over r of (p_r . X) * det(a, b, p_index1[r], p_index2[r])
      == (b . X) * det(a, p_0, p_1, p_2) - (a . X) * det(b, p_0, p_1, p_2). */
  lemma Pencil(a: Vec4, b: Vec4, p: Mat34, X: Vec4)
    ensures Dot4(p.r0, X) * Det4(a, b, p.r1, p.r2) + Dot4(p.r1, X) * Det4(a, b, p.r2, p.r0)
            + Dot4(p.r2, X) * Det4(a, b, p.r0, p.r1)
         == Dot4(b, X) * Det4(a, p.r0, p.r1, p.r2) - Dot4(a, X) * Det4(b, p.r0, p.r1, p.r2)
  {
    FiveRows(a, b, p.r0, p.r1, p.r2, X);
    Det4SwapLast(a, b, p.r0, p.r2);
  }

  /** Regrouping s^t F t column by column, when each column's weighted sum
      has the shape Pencil produces. */
  lemma RegroupCore(s: Vec3, F: Mat3, t: Vec3, h: Vec3)
    requires s.x * F.r0.x + s.y * F.r1.x + s.z * F.r2.x == t.z * h.y - t.y * h.z
    requires s.x * F.r0.y + s.y * F.r1.y + s.z * F.r2.y == t.x * h.z - t.z * h.x
    requires s.x * F.r0.z + s.y * F.r1.z + s.z * F.r2.z == t.y * h.x - t.x * h.y
    ensures Bilinear(s, F, t) == 0.0
  {
    BilinearByColumns(s, F, t);
    CyclicCancel(t.x, t.y, t.z, h.x, h.y, h.z);
  }

  /** s^t F t as the t-weighted sum of F's columns weighted by s. */
  lemma BilinearByColumns(s: Vec3, F: Mat3, t: Vec3)
    ensures Bilinear(s, F, t)
         == t.x * (s.x * F.r0.x + s.y * F.r1.x + s.z * F.r2.x)
          + t.y * (s.x * F.r0.y + s.y * F.r1.y + s.z * F.r2.y)
          + t.z * (s.x * F.r0.z + s.y * F.r1.z + s.z * F.r2.z)
  {
  }

  lemma CyclicCancel(t0: real, t1: real, t2: real, h0: real, h1: real, h2: real)
    ensures t0 * (t2 * h1 - t1 * h2) + t1 * (t0 * h2 - t2 * h0) + t2 * (t1 * h0 - t0 * h1) == 0.0
  {
  }

  /** Column c of F weighted by the projections of X through p1, in the
      shape of Pencil, with a = p2.row(index1[c]) and b = p2.row(index2[c]). */
  lemma PencilColumn(p1: Mat34, p2: Mat34, X: Vec4, c: nat, a: Vec4, b: Vec4)
    requires c < 3 && a == p2.Row(Index1[c]) && b == p2.Row(Index2[c])
    ensures Dot4(p1.r0, X) * FundamentalEntry(p1, p2, 0, c) + Dot4(p1.r1, X) * FundamentalEntry(p1, p2, 1, c)
            + Dot4(p1.r2, X) * FundamentalEntry(p1, p2, 2, c)
         == Dot4(b, X) * Det4(a, p1.r0, p1.r1, p1.r2) - Dot4(a, X) * Det4(b, p1.r0, p1.r1, p1.r2)
  {
    assert p1.Row(Index1[0]) == p1.r1 && p1.Row(Index2[0]) == p1.r2;
    assert p1.Row(Index1[1]) == p1.r2 && p1.Row(Index2[1]) == p1.r0;
    assert p1.Row(Index1[2]) == p1.r0 && p1.Row(Index2[2]) == p1.r1;
    Pencil(a, b, p1, X);
  }

  /** The epipole-like quantities det(p2.row(i), p1) used by Pencil. */
  function Cofactors(p1: Mat34, p2: Mat34): Vec3
  {
    Vec3(Det4(p2.r0, p1.r0, p1.r1, p1.r2), Det4(p2.r1, p1.r0, p1.r1, p1.r2), Det4(p2.r2, p1.r0, p1.r1, p1.r2))
  }

  lemma Column0(p1: Mat34, p2: Mat34, X: Vec4, s: Vec3, F: Mat3, t: Vec3, h: Vec3)
    requires s == MatVec34(p1, X) && F == FundamentalFromProjections(p1, p2)
    requires t == MatVec34(p2, X) && h == Cofactors(p1, p2)
    ensures s.x * F.r0.x + s.y * F.r1.x + s.z * F.r2.x == t.z * h.y - t.y * h.z
  {
    PencilColumn(p1, p2, X, 0, p2.r1, p2.r2);
  }

  lemma Column1(p1: Mat34, p2: Mat34, X: Vec4, s: Vec3, F: Mat3, t: Vec3, h: Vec3)
    requires s == MatVec34(p1, X) && F == FundamentalFromProjections(p1, p2)
    requires t == MatVec34(p2, X) && h == Cofactors(p1, p2)
    ensures s.x * F.r0.y + s.y * F.r1.y + s.z * F.r2.y == t.x * h.z - t.z * h.x
  {
    PencilColumn(p1, p2, X, 1, p2.r2, p2.r0);
  }

  lemma Column2(p1: Mat34, p2: Mat34, X: Vec4, s: Vec3, F: Mat3, t: Vec3, h: Vec3)
    requires s == MatVec34(p1, X) && F == FundamentalFromProjections(p1, p2)
    requires t == MatVec34(p2, X) && h == Cofactors(p1, p2)
    ensures s.x * F.r0.z + s.y * F.r1.z + s.z * F.r2.z == t.y * h.x - t.x * h.y
  {
    PencilColumn(p1, p2, X, 2, p2.r0, p2.r1);
  }

  /** The images of any point X under p1 and p2 satisfy the epipolar
      constraint (p1 X)^t F (p2 X) == 0. */
  lemma ProjectedEpipolar(p1: Mat34, p2: Mat34, X: Vec4)
    ensures Bilinear(MatVec34(p1, X), FundamentalFromProjections(p1, p2), MatVec34(p2, X)) == 0.0
  {
    var s, F, t, h := MatVec34(p1, X), FundamentalFromProjections(p1, p2), MatVec34(p2, X), Cofactors(p1, p2);
    Column0(p1, p2, X, s, F, t, h);
    Column1(p1, p2, X, s, F, t, h);
    Column2(p1, p2, X, s, F, t, h);
    RegroupCore(s, F, t, h);
  }

  lemma BilinearScale(u: Vec3, m: Mat3, v: Vec3, a: real, b: real)
    ensures Bilinear(Scale3(a, u), m, Scale3(b, v)) == a * b * Bilinear(u, m, v)
  {
    MatVecScale(m, b, v);
    DotScaleLeft(a, u, Scale3(b, MatVec3(m, v)));
    DotScaleRight(b, u, MatVec3(m, v));
    MulAssoc(a, b, Dot3(u, MatVec3(m, v)));
  }

  lemma UnscaleZero(u: Vec3, m: Mat3, v: Vec3, a: real, b: real)
    requires Bilinear(Scale3(a, u), m, Scale3(b, v)) == 0.0
    requires a != 0.0 && b != 0.0
    ensures Bilinear(u, m, v) == 0.0
  {
    BilinearScale(u, m, v, a, b);
    NonZeroProduct(a, b);
    ZeroProduct(a * b, Bilinear(u, m, v));
  }

  /** For image points x1, x2 that are exact projections of one point X
      (with non-zero weights), x1^t F x2 == 0: F * x2 is the epipolar line
      of x2 in the first image. */
  lemma EpipolarConstraint(p1: Mat34, p2: Mat34, X: Vec4, point1: Vec2, point2: Vec2, w1: real, w2: real)
    requires ProjectsTo(p1, X, point1, w1) && ProjectsTo(p2, X, point2, w2)
    requires w1 != 0.0 && w2 != 0.0
    ensures Bilinear(point1.Homogeneous(), FundamentalFromProjections(p1, p2), point2.Homogeneous()) == 0.0
  {
    ProjectedEpipolar(p1, p2, X);
    UnscaleZero(point1.Homogeneous(), FundamentalFromProjections(p1, p2), point2.Homogeneous(), w1, w2);
  }

  /** Exchanging the two projection matrices transposes the result. */
  lemma SwappedProjectionsTranspose(p1: Mat34, p2: Mat34)
    ensures FundamentalFromProjections(p2, p1) == FundamentalFromProjections(p1, p2).Transpose()
  {
    Det4SwapPairs(p2.r1, p2.r2, p1.r1, p1.r2);
    Det4SwapPairs(p2.r2, p2.r0, p1.r1, p1.r2);
    Det4SwapPairs(p2.r0, p2.r1, p1.r1, p1.r2);
    Det4SwapPairs(p2.r1, p2.r2, p1.r2, p1.r0);
    Det4SwapPairs(p2.r2, p2.r0, p1.r2, p1.r0);
    Det4SwapPairs(p2.r0, p2.r1, p1.r2, p1.r0);
    Det4SwapPairs(p2.r1, p2.r2, p1.r0, p1.r1);
    Det4SwapPairs(p2.r2, p2.r0, p1.r0, p1.r1);
    Det4SwapPairs(p2.r0, p2.r1, p1.r0, p1.r1);
  }
}
