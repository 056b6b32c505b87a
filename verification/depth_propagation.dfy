/** The depth pass run once per frame: check the keyframe record against
    its frame, carry every matched feature's depth from the previous frame
    into the current one through the relative camera motion, and walk the
    keyframe's links into the current frame. */
module DepthPropagation {
  import opened LinearAlgebra
  import opened RigidTransforms
  import opened VioData
  import opened KeyFrameTracking

  /** The z coordinate of the point lying at the previous feature's depth
      along its ray (u, v, 1), once last2current has been applied: the
      third row of the basis against the scaled ray, plus the origin's z. */
  function PropagatedDepth(last2current: Transform, last: Feature2D): (d: real)
    ensures d == last.depth * Dot3(last2current.basis.r2, last.undistorted.Homogeneous()) + last2current.origin.z
  {
    DotScaleRight(last.depth, last2current.basis.r2, last.undistorted.Homogeneous());
    Apply(last2current, Scale3(last.depth, last.undistorted.Homogeneous())).z
  }

  /** Without motion a depth is carried over unchanged. */
  lemma StillCameraKeepsDepth(last: Feature2D)
    ensures PropagatedDepth(Transform(Identity3, Vec3(0.0, 0.0, 0.0)), last) == last.depth
  {
  }

  /** A pure translation by tz along the optical axis shifts every depth by
      tz, whatever the feature's image position. */
  lemma AxialTranslationShiftsDepth(last: Feature2D, tz: real)
    ensures PropagatedDepth(Transform(Identity3, Vec3(0.0, 0.0, tz)), last) == last.depth + tz
  {
  }

  /** The relative motion as the depth pass computes it from the previous
      state and the current state x: the inverse of the previous camera
      pose times the current one. */
  function LastToCurrentAsWritten(lastState: State, x: State, b2c: Transform): Transform
  {
    Compose(Inverse(CameraTransformFromState(lastState, b2c)), CameraTransformFromState(x, b2c))
  }

  /** The product above takes a point given in the current camera to the
      previous camera's coordinates of the same world point: the opposite
      of the direction the depth pass applies it in. */
  lemma AsWrittenMapsCurrentToLast(lastState: State, x: State, b2c: Transform, p: Vec3)
    requires IsRotation(CameraTransformFromState(lastState, b2c).basis)
    ensures Apply(CameraTransformFromState(lastState, b2c), Apply(LastToCurrentAsWritten(lastState, x, b2c), p))
            == Apply(CameraTransformFromState(x, b2c), p)
  {
    var tfLast, tfCurrent := CameraTransformFromState(lastState, b2c), CameraTransformFromState(x, b2c);
    ComposeActsInSequence(Inverse(tfLast), tfCurrent, p);
    InverseUndoes(tfLast, Apply(tfCurrent, p));
  }

  /** The relative motion the depth pass needs: the inverse of the current
      camera pose times the previous one. */
  function LastToCurrent(lastState: State, x: State, b2c: Transform): Transform
  {
    Compose(Inverse(CameraTransformFromState(x, b2c)), CameraTransformFromState(lastState, b2c))
  }

  /** It takes a point given in the previous camera to the current camera's
      coordinates of the same world point. */
  lemma LastToCurrentMapsLastToCurrent(lastState: State, x: State, b2c: Transform, p: Vec3)
    requires IsRotation(CameraTransformFromState(x, b2c).basis)
    ensures Apply(CameraTransformFromState(x, b2c), Apply(LastToCurrent(lastState, x, b2c), p))
            == Apply(CameraTransformFromState(lastState, b2c), p)
  {
    var tfLast, tfCurrent := CameraTransformFromState(lastState, b2c), CameraTransformFromState(x, b2c);
    ComposeActsInSequence(Inverse(tfCurrent), tfLast, p);
    InverseUndoes(tfCurrent, Apply(tfLast, p));
  }

  /** The camera before and after advancing one unit along its optical
      axis: no rotation, from the origin to (0, 0, 1). */
  const StartState: State := State(Vec3(0.0, 0.0, 0.0), Identity3)
  const AdvancedState: State := State(Vec3(0.0, 0.0, 1.0), Identity3)

  /** As written, a point 10 units in front of the camera comes out 11
      units in front of it after the camera advances one unit. */
  lemma CameraAdvanceAsWritten(last: Feature2D)
    requires last.undistorted == Vec2(0.0, 0.0) && last.depth == 10.0
    ensures PropagatedDepth(LastToCurrentAsWritten(StartState, AdvancedState, NoExtrinsic), last) == 11.0
  {
    TranslatedCameraPose(StartState.position);
    TranslatedCameraPose(AdvancedState.position);
    TranslationInverse(StartState.position);
    TranslationsCompose(Neg3(StartState.position), AdvancedState.position);
    AxialTranslationShiftsDepth(last, 1.0);
  }

  /** With the relative motion in the intended direction, a point 10 units
      in front of the camera is 9 units in front of it after the camera
      advances one unit. */
  lemma OneUnitForwardScenario(last: Feature2D)
    requires last.undistorted == Vec2(0.0, 0.0) && last.depth == 10.0
    ensures PropagatedDepth(LastToCurrent(StartState, AdvancedState, NoExtrinsic), last) == 9.0
  {
    TranslatedCameraPose(StartState.position);
    TranslatedCameraPose(AdvancedState.position);
    TranslationInverse(AdvancedState.position);
    TranslationsCompose(Neg3(AdvancedState.position), StartState.position);
    AxialTranslationShiftsDepth(last, -1.0);
  }

  /** A current feature's link into the previous frame can be followed: it
      is unmatched, or its slot index is in range and the feature there has
      the identity the match records. */
  predicate MatchLinkValid(lf: Frame, e: Feature2D)
  {
    !e.matched || (InRange(e.matchedIndex, |lf.features|) && lf.features[e.matchedIndex].featureID == e.matchedID)
  }

  /** Why following a broken link aborts: the slot lookup comes first and is
      bounds-checked; the identity check is an assertion. */
  function LinkFault(lf: Frame, e: Feature2D): Fault
  {
    if !InRange(e.matchedIndex, |lf.features|) then OutOfRange else AssertionFailed
  }

  /** The feature after the carry-forward: matched features take the
      propagated depth of their partner, every other field is kept. */
  predicate CarriedForward(last2current: Transform, lf: Frame, e: Feature2D, e': Feature2D)
    requires MatchLinkValid(lf, e)
  {
    e' == e.(depth := e'.depth)
    && (e.matched ==> e'.depth == PropagatedDepth(last2current, lf.features[e.matchedIndex]))
    && (!e.matched ==> e' == e)
  }

  /** The first loop of the depth pass, over the current frame's features in
      slot order: the first broken link aborts the pass; otherwise every
      matched feature gets its propagated depth and nothing else changes. */
  method PropagateDepths(last2current: Transform, lf: Frame, features: seq<Feature2D>)
    returns (r: Result<seq<Feature2D>>)
    ensures r.Success? <==> forall i :: 0 <= i < |features| ==> MatchLinkValid(lf, features[i])
    ensures r.Failure? ==>
              exists i :: 0 <= i < |features| && !MatchLinkValid(lf, features[i])
                          && (forall j :: 0 <= j < i ==> MatchLinkValid(lf, features[j]))
                          && r.error == LinkFault(lf, features[i])
    ensures r.Success? ==>
              |r.value| == |features|
              && forall i :: 0 <= i < |features| ==> CarriedForward(last2current, lf, features[i], r.value[i])
  {
    var updated: seq<Feature2D> := [];
    var i := 0;
    while i < |features|
      invariant 0 <= i <= |features| && |updated| == i
      invariant forall j :: 0 <= j < i ==> MatchLinkValid(lf, features[j])
      invariant forall j :: 0 <= j < i ==> CarriedForward(last2current, lf, features[j], updated[j])
    {
      var e := features[i];
      if e.matched {
        if !InRange(e.matchedIndex, |lf.features|) {
          return Failure(OutOfRange);
        }
        var last := lf.features[e.matchedIndex];
        if last.featureID != e.matchedID {
          return Failure(AssertionFailed);
        }
        updated := updated + [e.(depth := PropagatedDepth(last2current, last))];
      } else {
        updated := updated + [e];
      }
      i := i + 1;
    }
    return Success(updated);
  }

  /** The keyframe check that opens the pass. Keyframe 0 and its frame are
      fetched with bounds checks; the assertion that follows assigns the
      frame's next-feature counter to the keyframe's cached copy and then
      tests the assigned value, so it fails only when that counter is 0 and
      never on a mismatch. */
  function KeyFrameGuard(frameBuffer: seq<Frame>, keyFrames: seq<KeyFrame>): (r: Result<seq<KeyFrame>>)
    ensures r.Success? <==>
              |keyFrames| > 0 && InRange(keyFrames[0].frameIndex, |frameBuffer|)
              && frameBuffer[keyFrames[0].frameIndex].nextFeatureID != 0
    ensures r.Failure? ==>
              r.error == if |keyFrames| > 0 && InRange(keyFrames[0].frameIndex, |frameBuffer|)
                         then AssertionFailed else OutOfRange
    ensures r.Success? ==>
              |r.value| == |keyFrames| && r.value[1..] == keyFrames[1..]
              && r.value[0] == keyFrames[0].(nextFeatureID := r.value[0].nextFeatureID)
              && r.value[0].nextFeatureID == frameBuffer[keyFrames[0].frameIndex].nextFeatureID
  {
    if |keyFrames| < 1 then
      Failure(OutOfRange)
    else
      var kf := keyFrames[0];
      if !InRange(kf.frameIndex, |frameBuffer|) then
        Failure(OutOfRange)
      else
        var counter := frameBuffer[kf.frameIndex].nextFeatureID;
        if counter == 0 then Failure(AssertionFailed) else Success(keyFrames[0 := kf.(nextFeatureID := counter)])
  }

  /** A keyframe whose cached counter disagrees with its frame's passes the
      check, and leaves it agreeing. */
  lemma StaleCounterIsOverwritten(frameBuffer: seq<Frame>, keyFrames: seq<KeyFrame>)
    requires |keyFrames| > 0 && InRange(keyFrames[0].frameIndex, |frameBuffer|)
    requires keyFrames[0].nextFeatureID != frameBuffer[keyFrames[0].frameIndex].nextFeatureID
    requires frameBuffer[keyFrames[0].frameIndex].nextFeatureID != 0
    ensures KeyFrameGuard(frameBuffer, keyFrames).Success?
    ensures KeyFrameGuard(frameBuffer, keyFrames).value[0].nextFeatureID != keyFrames[0].nextFeatureID
  {
  }

  /** Passing the check a second time changes nothing. */
  lemma KeyFrameGuardIdempotent(frameBuffer: seq<Frame>, keyFrames: seq<KeyFrame>)
    requires KeyFrameGuard(frameBuffer, keyFrames).Success?
    ensures KeyFrameGuard(frameBuffer, KeyFrameGuard(frameBuffer, keyFrames).value) == KeyFrameGuard(frameBuffer, keyFrames)
  {
    var k := KeyFrameGuard(frameBuffer, keyFrames).value;
    assert k == k[0 := k[0].(nextFeatureID := frameBuffer[k[0].frameIndex].nextFeatureID)];
  }

  /** Once keyframe 0 has been pointed at the frame before the newest, the
      check can no longer fail on a bounds check: it fails exactly when
      that frame's counter is 0. */
  lemma KeyFrameInfoFeedsDepthPass(v: Vio)
    requires |v.frameBuffer| < SizeModulus
    requires UpdateKeyFrameInfo(v).Success?
    ensures var r := KeyFrameGuard(v.frameBuffer, UpdateKeyFrameInfo(v).value.keyFrames);
            (r.Failure? ==> r.error == AssertionFailed)
            && (r.Success? <==> v.frameBuffer[|v.frameBuffer| - 2].nextFeatureID != 0)
  {
  }

  /** Every link from the keyframe into the current frame can be followed:
      the keyframe holds a matched feature for every recorded slot, and
      every recorded slot exists in the current frame. */
  predicate KeyFrameLinksValid(kf: KeyFrame, featureCount: nat)
  {
    |kf.currentFrameIndexes| <= |kf.matchedFeatures|
    && forall i :: 0 <= i < |kf.currentFrameIndexes| ==> InRange(kf.currentFrameIndexes[i], featureCount)
  }

  /** The second loop of the depth pass: for each recorded link, the
      keyframe's feature and the current frame's feature are fetched with
      bounds checks (the least-squares solve that follows only logs its
      result). Reports whether every fetch succeeds. */
  method CheckKeyFrameLinks(kf: KeyFrame, features: seq<Feature2D>) returns (ok: bool)
    ensures ok <==> KeyFrameLinksValid(kf, |features|)
  {
    var i := 0;
    while i < |kf.currentFrameIndexes|
      invariant 0 <= i <= |kf.currentFrameIndexes|
      invariant i <= |kf.matchedFeatures|
      invariant forall j :: 0 <= j < i ==> InRange(kf.currentFrameIndexes[j], |features|)
    {
      if !InRange(i, |kf.matchedFeatures|) || !InRange(kf.currentFrameIndexes[i], |features|) {
        return false;
      }
      i := i + 1;
    }
    return true;
  }

  /** What a completed pass leaves behind: the current frame with its
      updated depths and the keyframe list with keyframe 0's counter
      refreshed. */
  datatype DepthPass = DepthPass(current: Frame, keyFrames: seq<KeyFrame>)

  /** The whole depth pass for current frame cf, previous frame lf, current
      state x and extrinsic b2c. The relative motion is computed from x,
      lf's state and b2c as the code does. The pass aborts on the keyframe
      check, then on the first broken match link, then on a broken keyframe
      link, in that order. */
  method UpdateFeatureDepths(frameBuffer: seq<Frame>, keyFrames: seq<KeyFrame>, cf: Frame, lf: Frame,
                             x: State, b2c: Transform)
    returns (r: Result<DepthPass>)
    ensures var g := KeyFrameGuard(frameBuffer, keyFrames);
            r.Success? <==>
              g.Success?
              && (forall i :: 0 <= i < |cf.features| ==> MatchLinkValid(lf, cf.features[i]))
              && KeyFrameLinksValid(keyFrames[0], |cf.features|)
    ensures KeyFrameGuard(frameBuffer, keyFrames).Failure? ==> r == Failure(KeyFrameGuard(frameBuffer, keyFrames).error)
    ensures KeyFrameGuard(frameBuffer, keyFrames).Success? && r.Failure? ==>
              (exists i :: 0 <= i < |cf.features| && !MatchLinkValid(lf, cf.features[i])
                           && (forall j :: 0 <= j < i ==> MatchLinkValid(lf, cf.features[j]))
                           && r.error == LinkFault(lf, cf.features[i]))
              || ((forall i :: 0 <= i < |cf.features| ==> MatchLinkValid(lf, cf.features[i])) && r.error == OutOfRange)
    ensures r.Success? ==>
              r.value.keyFrames == KeyFrameGuard(frameBuffer, keyFrames).value
              && r.value.current == cf.(features := r.value.current.features)
              && |r.value.current.features| == |cf.features|
              && forall i :: 0 <= i < |cf.features| ==>
                   CarriedForward(LastToCurrentAsWritten(lf.state, x, b2c), lf, cf.features[i],
                                  r.value.current.features[i])
  {
    var guard := KeyFrameGuard(frameBuffer, keyFrames);
    if guard.Failure? {
      return Failure(guard.error);
    }
    var kf := guard.value[0];
    var last2current := LastToCurrentAsWritten(lf.state, x, b2c);
    var propagated := PropagateDepths(last2current, lf, cf.features);
    if propagated.Failure? {
      return Failure(propagated.error);
    }
    var linksOk := CheckKeyFrameLinks(kf, propagated.value);
    if !linksOk {
      return Failure(OutOfRange);
    }
    return Success(DepthPass(cf.(features := propagated.value), guard.value));
  }
}
