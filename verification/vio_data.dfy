/** The records the triangulation front end reads and updates: 2D features,
    frames, the keyframe record, 3D landmarks and the filter object holding
    their collections, plus the two ways a pass can stop. */
module VioData {
  import opened LinearAlgebra
  import opened RigidTransforms

  /** How a pass aborts: a bounds-checked access (`at`) out of range, or a
      failed runtime assertion. */
  datatype Fault = OutOfRange | AssertionFailed

  datatype Result<+T> = Success(value: T) | Failure(error: Fault)

  /** One tracked image point: identity, undistorted coordinates, an optional
      match into the previous frame (identity and slot index), and the depth
      estimate along its ray with its variance. */
  datatype Feature2D = Feature2D(featureID: int, undistorted: Vec2, matched: bool, matchedID: int,
                                 matchedIndex: int, depth: real, depthVariance: real)

  /** One processed image: the filter state at capture time, its features in
      slot order, and the identity the next new feature will receive. */
  datatype Frame = Frame(state: State, features: seq<Feature2D>, nextFeatureID: int)

  /** The keyframe record: which frame of the frame buffer it stands for, a
      cached copy of that frame's next-feature counter, and the keyframe's
      features matched into the current frame together with their slot
      indexes there. */
  datatype KeyFrame = KeyFrame(frameIndex: int, nextFeatureID: int, matchedFeatures: seq<Feature2D>,
                               currentFrameIndexes: seq<int>)

  /** A landmark: position in the world and the variance used to rank it. */
  datatype Feature3D = Feature3D(position: Vec3, variance: real)

  /** The state of the filter object that this core reads and writes. */
  datatype Vio = Vio(frameBuffer: seq<Frame>, keyFrames: seq<KeyFrame>,
                     active3DFeatures: seq<Feature3D>, inactive3DFeatures: seq<Feature3D>)

  /** Container sizes are 64-bit unsigned values. */
  const SizeModulus: nat := 0x1_0000_0000_0000_0000

  /** n - m computed in size arithmetic, wrapping below zero. */
  function SizeSub(n: nat, m: nat): (r: nat)
    ensures r < SizeModulus
    ensures n < SizeModulus && m <= n ==> r == n - m
    ensures n < m && m - n <= SizeModulus ==> r == SizeModulus - (m - n)
  {
    (n - m) % SizeModulus
  }

  /** Whether `at(i)` on a container of length n succeeds, for an index held
      in a signed int (a negative value converts to a huge size). */
  predicate InRange(i: int, n: nat)
  {
    0 <= i < n
  }
}
