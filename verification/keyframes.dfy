/** Keyframe bookkeeping: after each frame, keyframe 0 is pointed at the
    second-newest frame of the frame buffer, creating the keyframe record on
    the first call. A keyframe refers to its frame by position in the frame
    buffer. */
module KeyFrameTracking {
  import opened VioData

  /** A freshly created keyframe record standing for frame `index`; its
      lists start empty. The cached counter is set to 0, an arbitrary
      choice: the code leaves it to the record's default construction, and
      the depth pass overwrites it before reading it. */
  function NewKeyFrame(index: int): (k: KeyFrame)
    ensures k.frameIndex == index && k.matchedFeatures == [] && k.currentFrameIndexes == []
  {
    KeyFrame(index, 0, [], [])
  }

  /** Point keyframe 0 at frame |frameBuffer| - 2, pushing a new keyframe
      when there is none. The index is computed in size arithmetic, so a
      buffer of fewer than two frames wraps to a huge index and the
      bounds-checked access fails. A container never holds 2^64 elements,
      which the precondition states. */
  function UpdateKeyFrameInfo(v: Vio): (r: Result<Vio>)
    requires |v.frameBuffer| < SizeModulus
    ensures r.Success? <==> |v.frameBuffer| >= 2
    ensures r.Failure? ==> r.error == OutOfRange
    ensures r.Success? ==> r.value == v.(keyFrames := r.value.keyFrames)
    ensures r.Success? ==> |r.value.keyFrames| == if |v.keyFrames| == 0 then 1 else |v.keyFrames|
    ensures r.Success? ==> r.value.keyFrames[0].frameIndex == |v.frameBuffer| - 2
    ensures r.Success? && |v.keyFrames| == 0 ==>
              r.value.keyFrames[0].matchedFeatures == [] && r.value.keyFrames[0].currentFrameIndexes == []
    ensures r.Success? && |v.keyFrames| > 0 ==>
              r.value.keyFrames[0] == v.keyFrames[0].(frameIndex := |v.frameBuffer| - 2)
              && r.value.keyFrames[1..] == v.keyFrames[1..]
  {
    var index := SizeSub(|v.frameBuffer|, 2);
    if !InRange(index, |v.frameBuffer|) then
      Failure(OutOfRange)
    else if |v.keyFrames| < 1 then
      Success(v.(keyFrames := v.keyFrames + [NewKeyFrame(index)]))
    else
      Success(v.(keyFrames := v.keyFrames[0 := v.keyFrames[0].(frameIndex := index)]))
  }

  /** Running the update twice in a row changes nothing more. */
  lemma UpdateKeyFrameInfoIdempotent(v: Vio)
    requires |v.frameBuffer| < SizeModulus
    requires UpdateKeyFrameInfo(v).Success?
    ensures UpdateKeyFrameInfo(UpdateKeyFrameInfo(v).value) == UpdateKeyFrameInfo(v)
  {
    var w := UpdateKeyFrameInfo(v).value;
    assert w.keyFrames == w.keyFrames[0 := w.keyFrames[0].(frameIndex := |w.frameBuffer| - 2)];
  }
}
