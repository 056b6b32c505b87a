/** Rigid-body transforms in the layout of the tf library: a 3x3 basis and an
    origin, acting on a point p as basis * p + origin. Poses are given as
    (R, t) pairs; the quaternion-to-matrix conversion is not part of this
    model. */
module RigidTransforms {
  import opened LinearAlgebra

  datatype Transform = Transform(basis: Mat3, origin: Vec3)

  /** The part of the filter state this core reads: body position and
      orientation (given directly as a rotation matrix). */
  datatype State = State(position: Vec3, orientation: Mat3)

  /** The image of point p: basis * p + origin. */
  function Apply(t: Transform, p: Vec3): Vec3
  {
    Add3(MatVec3(t.basis, p), t.origin)
  }

  /** tf's Transform product a * b: bases multiply and b's origin is mapped
      through a. */
  function Compose(a: Transform, b: Transform): Transform
  {
    Transform(MatMul3(a.basis, b.basis), Apply(a, b.origin))
  }

  /** The product transform acts as "first b, then a". */
  lemma ComposeActsInSequence(a: Transform, b: Transform, p: Vec3)
    ensures Apply(Compose(a, b), p) == Apply(a, Apply(b, p))
  {
    MatMulAction(a.basis, b.basis, p);
    MatVecAdd(a.basis, MatVec3(b.basis, p), b.origin);
  }

  /** tf's inverse: the transposed basis, and the negated origin mapped
      through it. It is a true inverse only when the basis is a rotation. */
  function Inverse(t: Transform): Transform
  {
    var inv := t.basis.Transpose();
    Transform(inv, MatVec3(inv, Neg3(t.origin)))
  }

  /** A basis whose transpose is its inverse. */
  predicate IsRotation(m: Mat3)
  {
    MatMul3(m, m.Transpose()) == Identity3
  }

  /** For a rotation basis, applying the inverse and then the transform
      gives back the point. */
  lemma InverseUndoes(t: Transform, w: Vec3)
    requires IsRotation(t.basis)
    ensures Apply(t, Apply(Inverse(t), w)) == w
  {
    var inv := t.basis.Transpose();
    MatVecAdd(t.basis, MatVec3(inv, w), MatVec3(inv, Neg3(t.origin)));
    MatMulAction(t.basis, inv, w);
    MatMulAction(t.basis, inv, Neg3(t.origin));
  }

  /** The inverse of a pure translation is the opposite translation. */
  lemma TranslationInverse(a: Vec3)
    ensures Inverse(Transform(Identity3, a)) == Transform(Identity3, Neg3(a))
  {
    IdentityTranspose();
    IdentityAction(Neg3(a));
  }

  /** Pure translations compose by adding their offsets. */
  lemma TranslationsCompose(a: Vec3, b: Vec3)
    ensures Compose(Transform(Identity3, a), Transform(Identity3, b)) == Transform(Identity3, Add3(b, a))
  {
    IdentityProduct();
    IdentityAction(b);
  }

  /** The body pose of state x: its orientation and position. */
  function BodyPose(x: State): Transform
  {
    Transform(x.orientation, x.position)
  }

  /** The camera pose of state x, given the body-to-camera extrinsic b2c. */
  function CameraTransformFromState(x: State, b2c: Transform): (r: Transform)
    ensures r.basis == MatMul3(x.orientation, b2c.basis)
    ensures r.origin == Add3(MatVec3(x.orientation, b2c.origin), x.position)
  {
    Compose(BodyPose(x), b2c)
  }

  /** The extrinsic of a camera mounted at the body origin, unrotated. */
  const NoExtrinsic: Transform := Transform(Identity3, Vec3(0.0, 0.0, 0.0))

  /** With no rotation anywhere, the camera pose has no rotation either. */
  lemma UnrotatedCameraBasis(p: Vec3)
    ensures CameraTransformFromState(State(p, Identity3), NoExtrinsic).basis == Identity3
  {
    IdentityProduct();
  }

  /** An extrinsic without offset puts the camera at the body position. */
  lemma CameraAtBodyPosition(x: State, b: Mat3)
    ensures CameraTransformFromState(x, Transform(b, Vec3(0.0, 0.0, 0.0))).origin == x.position
  {
    ZeroImage(x.orientation);
  }

  /** With no rotation and no extrinsic, the camera pose is the translation
      by the body position. */
  lemma TranslatedCameraPose(p: Vec3)
    ensures CameraTransformFromState(State(p, Identity3), NoExtrinsic) == Transform(Identity3, p)
  {
    UnrotatedCameraBasis(p);
    CameraAtBodyPosition(State(p, Identity3), Identity3);
  }

  /** The camera pose acts as the extrinsic b2c followed by the body pose. */
  lemma CameraPoseActsInSequence(x: State, b2c: Transform, p: Vec3)
    ensures Apply(CameraTransformFromState(x, b2c), p) == Apply(BodyPose(x), Apply(b2c, p))
  {
    ComposeActsInSequence(BodyPose(x), b2c, p);
  }

  /** The 3x4 matrix [R | t] of a transform. */
  function RtMatrix(t: Transform): (m: Mat34)
    ensures forall i :: 0 <= i < 3 ==> m.Row(i).Drop(3) == t.basis.Row(i)
    ensures forall i :: 0 <= i < 3 ==> m.Row(i).w == t.origin.At(i)
  {
    Mat34(Vec4(t.basis.r0.x, t.basis.r0.y, t.basis.r0.z, t.origin.x),
          Vec4(t.basis.r1.x, t.basis.r1.y, t.basis.r1.z, t.origin.y),
          Vec4(t.basis.r2.x, t.basis.r2.y, t.basis.r2.z, t.origin.z))
  }

  /** [R | t] applied to the homogeneous point (p, 1) is the transform of p. */
  lemma RtMatrixActsAsTransform(t: Transform, p: Vec3)
    ensures MatVec34(RtMatrix(t), Vec4(p.x, p.y, p.z, 1.0)) == Apply(t, p)
  {
  }
}
