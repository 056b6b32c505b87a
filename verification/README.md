# Two-view triangulation and depth propagation of a monocular VIO front end

This project models the geometric core of a visual-inertial odometry front
end: the per-frame pass that carries feature depths from the previous
camera frame into the current one, the keyframe bookkeeping it relies on,
the Direct Linear Transform (DLT) system and the fundamental matrix used to
triangulate a point seen from two posed cameras, the conversion of a rigid
transform to a 3x4 `[R | t]` matrix, the camera pose derived from the
filter state, and the ordering of the active landmark pool by variance.

Modules, one concept each:

- `LinearAlgebra` (`linear_algebra.dfy`): fixed-size real vectors and
  matrices as datatypes, 3x3 and 4x4 determinants (Leibniz form), Laplace
  expansion and the five-row determinant identity.
- `RigidTransforms` (`rigid_transforms.dfy`): tf-style transforms (basis,
  origin), their product and tf's inverse, the camera pose from the state,
  and the `[R | t]` matrix.
- `Triangulation` (`triangulation.dfy`): the DLT design matrix and its
  nullspace, and the fundamental matrix built from 4x4 determinants, with
  the epipolar constraint proved for it.
- `VioData` (`vio_data.dfy`): features, frames, the keyframe record,
  landmarks, the filter state, and the abort reasons (`OutOfRange` for a
  failed bounds-checked `at`, `AssertionFailed` for a failed runtime
  assertion).
- `KeyFrameTracking` (`keyframes.dfy`): pointing keyframe 0 at the
  second-newest frame.
- `Landmarks` (`landmarks.dfy`): sorting the active landmark pool.
- `DepthPropagation` (`depth_propagation.dfy`): the depth pass.

Modelling decisions:

- Every `double` is a `real`, so the statements are exact, without rounding.
- Vectors and matrices are small datatypes rather than Eigen or OpenCV
  objects. Eigen's `Map` over a raw array is column-major, and
  `MapMatrix34` and `MapMatrix3` say so.
- A keyframe refers to its frame by position in the frame buffer. Both
  keyframe record types of the code collapse into one `KeyFrame`. The
  pointer into the buffer is `frameIndex`.
- An abort is a `Failure` result. What the aborted pass had already written
  is not part of the result.
- Runtime assertions are taken to be enabled, as in a debug build.
- The orientation of the state is given as a rotation matrix.
- The body-to-camera extrinsic `b2c` is a parameter. The model does not
  assume which way it maps: every statement about it holds for any
  transform, except that the direction lemmas `AsWrittenMapsCurrentToLast`
  and `LastToCurrentMapsLastToCurrent` need the composed camera basis to
  be a rotation.
- The relative camera motion computed at `vioTriangulate.cpp:163` is
  modelled as written (`LastToCurrentAsWritten`). Next to it is the
  direction the depth update needs (`LastToCurrent`); see "## Findings".
  `UpdateFeatureDepths` computes the relative motion as written, from the
  current state, the previous frame's state and the extrinsic.
  `PropagateDepths` takes the motion as a parameter, so its contract holds
  for either direction.
- The current and previous frames are parameters. The accessors that select
  them are not part of this model.

Where the documented intent and the code disagree, the model follows the
code:

- The keyframe check at `vioTriangulate.cpp:154` is meant to confirm that
  the keyframe's cached next-feature counter matches its frame's. The code
  assigns instead of comparing. So the check overwrites the cache and fails
  only when the frame's counter is 0 (`KeyFrameGuard`,
  `StaleCounterIsOverwritten`).
- The keyframe re-triangulation loop is described as refining depths. The
  code solves the system and only logs the result, so the model checks just
  the bounds of that loop's lookups (`CheckKeyFrameLinks`).

## Model

| member | source | states |
|---|---|---|
| RigidTransforms.CameraTransformFromState | include/pauvsi_vio/Motion.cpp:28-31 | the camera pose has rotation R_state * R_b2c and origin R_state * t_b2c + p_state |
| RigidTransforms.CameraPoseActsInSequence | include/pauvsi_vio/Motion.cpp:28-31 | the camera pose applies b2c first and the body pose second |
| RigidTransforms.CameraAtBodyPosition | include/pauvsi_vio/Motion.cpp:28-31 | with an extrinsic that has no offset, the camera pose's origin is the body position, whatever the rotations |
| RigidTransforms.TranslatedCameraPose | include/pauvsi_vio/Motion.cpp:28-31 | with no rotation and no extrinsic, the camera pose is the translation by the body position |
| RigidTransforms.InverseUndoes | include/pauvsi_vio/vioTriangulate.cpp:163 | for a rotation basis, tf's inverse (transposed basis, transposed basis times the negated origin) followed by the transform is the identity on points |
| RigidTransforms.TranslationInverse | include/pauvsi_vio/vioTriangulate.cpp:163 | the inverse of a pure translation by a is the translation by -a |
| RigidTransforms.TranslationsCompose | include/pauvsi_vio/vioTriangulate.cpp:163 | the product of translations by a and b is the translation by a + b |
| RigidTransforms.ComposeActsInSequence | include/pauvsi_vio/Motion.cpp:30 | the tf product a * b maps p to a(b(p)) |
| RigidTransforms.RtMatrix | include/pauvsi_vio/vioTriangulate.cpp:121-127 | row i of the 3x4 matrix is row i of the basis followed by origin component i |
| RigidTransforms.RtMatrixActsAsTransform | include/pauvsi_vio/vioTriangulate.cpp:121-127 | [R \| t] applied to (p, 1) is the transform of p |
| Triangulation.TriangulateDLT | include/pauvsi_vio/vioTriangulate.cpp:65-78 | always reports success; a point is in the design matrix's nullspace iff it projects onto both image points |
| Triangulation.ViewNullspace | include/pauvsi_vio/vioTriangulate.cpp:69-70 | one view's two rows x*P3-P1 and y*P3-P2 vanish at X iff P X = (P3.X) * (x, y, 1) |
| Triangulation.DesignNullspace | include/pauvsi_vio/vioTriangulate.cpp:69-72 | the four rows vanish at X iff X projects exactly onto both points |
| Triangulation.DesignAnnihilatesProjectedPoint | include/pauvsi_vio/vioTriangulate.cpp:69-76 | a point projecting onto both image points, with any weights, is a nullspace vector of the design matrix |
| Triangulation.FundamentalMatrixFromProjectionMatrices | include/pauvsi_vio/vioTriangulate.cpp:83-101 | the nested loop fills the column-major output so that F(r, c) = det[P2 rows index1[c], index2[c]; P1 rows index1[r], index2[r]] |
| Triangulation.ProjectedEpipolar | include/pauvsi_vio/vioTriangulate.cpp:83-101 | for every X, (P1 X)^t F (P2 X) = 0 |
| Triangulation.EpipolarConstraint | include/pauvsi_vio/vioTriangulate.cpp:83-101 | exact projections x1, x2 of one point with non-zero weights satisfy x1^t F x2 = 0 |
| Triangulation.SwappedProjectionsTranspose | include/pauvsi_vio/vioTriangulate.cpp:83-101 | exchanging the two projection matrices transposes F |
| Landmarks.InsertByVariance | include/pauvsi_vio/vioTriangulate.cpp:10-14 | inserting into a pool sorted under the comparator keeps it sorted and adds exactly one landmark |
| Landmarks.SortByVariance | include/pauvsi_vio/vioTriangulate.cpp:16-19 | the result is a permutation of the pool and no landmark ranks before an earlier one |
| Landmarks.SortActive3DFeaturesByVariance | include/pauvsi_vio/vioTriangulate.cpp:16-19 | the active pool becomes a sorted permutation of itself; every other part of the filter is unchanged |
| Landmarks.SortedMeansAscendingVariances | include/pauvsi_vio/vioTriangulate.cpp:10-14 | sorted under the strict comparator iff the variances are non-decreasing |
| Landmarks.SortedArrangementsAgree | include/pauvsi_vio/vioTriangulate.cpp:16-19 | any two sorted permutations of a pool have the same variance sequence, whatever order the unstable sort picks |
| Landmarks.ThreeLandmarkOrdering | include/pauvsi_vio/vioTriangulate.cpp:16-19 | landmarks with variances 0.8, 0.1, 0.5 are ordered 0.1, 0.5, 0.8 |
| VioData.SizeSub | include/pauvsi_vio/Motion.cpp:18 | size subtraction is exact when it does not go below zero and wraps modulo 2^64 when it does |
| KeyFrameTracking.UpdateKeyFrameInfo | include/pauvsi_vio/Motion.cpp:11-25 | succeeds iff the frame buffer has at least two frames; keyframe 0 then refers to frame size-2; a new keyframe is pushed only when there was none; the other keyframes and the rest of the filter are unchanged |
| KeyFrameTracking.UpdateKeyFrameInfoIdempotent | include/pauvsi_vio/Motion.cpp:11-25 | a second update right after the first changes nothing |
| DepthPropagation.PropagatedDepth | include/pauvsi_vio/vioTriangulate.cpp:179-182 | the new depth is d * (R row 3 . (u, v, 1)) + t_z for the previous feature's depth d and ray (u, v, 1) |
| DepthPropagation.StillCameraKeepsDepth | include/pauvsi_vio/vioTriangulate.cpp:179-182 | with no motion the depth is kept |
| DepthPropagation.AxialTranslationShiftsDepth | include/pauvsi_vio/vioTriangulate.cpp:179-182 | a translation tz along the optical axis shifts every depth by tz |
| DepthPropagation.AsWrittenMapsCurrentToLast | include/pauvsi_vio/vioTriangulate.cpp:160-163 | the product computed at line 163 takes a point in the current camera to the previous camera's coordinates of the same world point, when the previous pose's basis is a rotation |
| DepthPropagation.LastToCurrentMapsLastToCurrent | include/pauvsi_vio/vioTriangulate.cpp:160-163 | the corrected product takes a point in the previous camera to the current camera's coordinates of the same world point, when the current pose's basis is a rotation |
| DepthPropagation.CameraAdvanceAsWritten | include/pauvsi_vio/vioTriangulate.cpp:160-182 | as written, when the camera advances one unit along its axis, an on-axis point at depth 10 comes out at depth 11 |
| DepthPropagation.OneUnitForwardScenario | include/pauvsi_vio/vioTriangulate.cpp:160-182 | with the corrected relative motion, an on-axis point at depth 10 is at depth 9 after the camera advances one unit |
| DepthPropagation.PropagateDepths | include/pauvsi_vio/vioTriangulate.cpp:170-184 | succeeds iff every match link is valid; on failure reports the first broken link's fault; on success keeps the feature count, gives each matched feature its partner's propagated depth and changes nothing else |
| DepthPropagation.KeyFrameGuard | include/pauvsi_vio/vioTriangulate.cpp:153-154 | fails with OutOfRange when there is no keyframe or its frame index is out of range, and with AssertionFailed only when the frame's counter is 0; on success keyframe 0's counter equals its frame's and nothing else changes |
| DepthPropagation.StaleCounterIsOverwritten | include/pauvsi_vio/vioTriangulate.cpp:154 | a mismatched cached counter is not an error: it is replaced by the frame's |
| DepthPropagation.KeyFrameGuardIdempotent | include/pauvsi_vio/vioTriangulate.cpp:153-154 | passing the check twice equals passing it once |
| DepthPropagation.KeyFrameInfoFeedsDepthPass | include/pauvsi_vio/vioTriangulate.cpp:153-154 | after the keyframe update, the check cannot fail on bounds and succeeds iff the second-newest frame's counter is non-zero |
| DepthPropagation.CheckKeyFrameLinks | include/pauvsi_vio/vioTriangulate.cpp:191-196 | the loop's lookups all succeed iff every recorded slot has a keyframe feature and exists in the current frame |
| DepthPropagation.UpdateFeatureDepths | include/pauvsi_vio/vioTriangulate.cpp:141-211 | the pass succeeds iff the keyframe check, every match link and every keyframe link succeed, aborting on them in that order; on success the current frame keeps its state and feature count, each matched feature carries its partner's depth propagated through the line-163 motion computed from the current state, the previous frame's state and the extrinsic, and keyframe 0's counter is refreshed |

## Left out

- `FindOptimalImagePoints` (`vioTriangulate.cpp:27-62`): the epipolar correction takes the square root of `b*b - a*c`, which is NaN when that value is negative. It then divides by `b + d` and by a sum of squared norms, either of which can be zero. It is not modelled.
- Triangulation.TriangulateDLT: returns the design matrix and characterises its nullspace. It does not extract the smallest right singular vector by singular value decomposition, because SVD is a numerical library routine.
- `Triangulate` (`vioTriangulate.cpp:104-118`): a wrapper that only chains the epipolar correction into `TriangulateDLT`. Its fundamental-matrix computation is commented out in the source.
- `decomposeEssentialMatrix` (`vioTriangulate.cpp:213-227`): it consists of an SVD followed by fixed matrix products.
- DepthPropagation.UpdateFeatureDepths: the result of the transform lookup at line 145 is the extrinsic `b2c`, a parameter of the pass. It enters both camera poses of lines 160-163 and so every depth written at line 182. The lookup's failure path is not modelled: when it throws, the pass logs a warning and carries on with the default-constructed local transform of line 143.
- DepthPropagation.UpdateFeatureDepths: the keyframe pose `P2_temp`, the matrices P1, P2 and A, `cv::solve` and the debug logging are left out. They are library calls whose results the pass only logs.
- DepthPropagation.UpdateFeatureDepths: the unused `variance` argument is not a parameter.
- DepthPropagation.PropagateDepths: writes made before an abort are not part of the failure result. The source updates features in place, so a failed pass leaves the earlier features already updated.
- DepthPropagation.PropagatedDepth: the undistorted coordinates are single-precision values in the source. Their rounding is not modelled.
- DepthPropagation.KeyFrameGuard: assumes runtime assertions are compiled in. In a build that disables them, the assignment inside the assertion does not run either.
- KeyFrameTracking.UpdateKeyFrameInfo: the unused static `candidate` is not modelled. The frame pointer is an index, so pointer invalidation when the frame buffer grows is not modelled either.
- `structureOnlyBundleAdjustment` (`Motion.cpp:33-36`): an empty stub.
- The commented-out `update3DFeatures` (`vioTriangulate.cpp:229` onward): it is dead code.
- Quaternion-to-matrix conversion: the state's orientation is given as a rotation matrix.
- The direction of the extrinsic looked up at `vioTriangulate.cpp:145` (camera frame from the CoM frame) is not modelled. `b2c` is an arbitrary transform.

## Findings

| source | as written | input that shows it | evidently intended | confidence | as-written member | corrected member |
|---|---|---|---|---|---|---|
| include/pauvsi_vio/vioTriangulate.cpp:163 | `last2current` is the inverse of the previous camera pose times the current one. That product takes current-camera coordinates to previous-camera coordinates, yet line 179 applies it to a point given in the previous camera | no rotation and no extrinsic, camera moves from (0, 0, 0) to (0, 0, 1), on-axis feature at depth 10: the new depth is 11 | the inverse of the current camera pose times the previous one, giving depth 9; `LastToCurrentMapsLastToCurrent` proves in general that it maps previous-camera points into the current camera | medium, not executed; it rests on tf's reading of `Transform(q, position)` as body-to-world | DepthPropagation.CameraAdvanceAsWritten | DepthPropagation.OneUnitForwardScenario |
