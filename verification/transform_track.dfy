/** The animation of one joint: a position track, a rotation track and a
    scale track, tagged with the id of the joint they drive. A channel is
    animated when its track has more than one keyframe; channels that are
    not animated leave the joint's value alone. */
module TransformTracks {
  import opened TrackTime
  import opened TrackSampling
  import V = Vectors
  import Q = Quaternions
  import T = Transforms

  datatype TransformTrack = TransformTrack(
    id: nat,
    position: Track<V.Vec3>,
    rotation: Track<Q.Quat>,
    scale: Track<V.Vec3>)

  /** `TransformTrack()`: id 0 and three empty linear tracks. */
  function NewTransformTrack(): (r: TransformTrack)
    ensures r.id == 0 && !IsValid(r)
    ensures r.position.interpolation == Linear && r.rotation.interpolation == Linear
            && r.scale.interpolation == Linear
  {
    TransformTrack(0, NewTrack(), NewTrack(), NewTrack())
  }

  /** A channel takes part in sampling and in the time range only when its
      track has more than one keyframe. */
  predicate Animated<T>(track: Track<T>)
  {
    |track.frames| > 1
  }

  /** `IsValid`: at least one channel is animated. */
  predicate IsValid(tt: TransformTrack)
  {
    Animated(tt.position) || Animated(tt.rotation) || Animated(tt.scale)
  }

  /** `GetStartTime`, as TransformTrack.cpp writes it: the channels are visited in
      the order position, rotation, scale, and each animated channel's start
      replaces the running result when it is earlier or when nothing has
      been set yet. */
  function StartTime(tt: TransformTrack): (r: real)
    ensures !IsValid(tt) ==> r == 0.0
    ensures Animated(tt.position) ==> r <= tt.position.frames[0].time
    ensures Animated(tt.rotation) ==> r <= tt.rotation.frames[0].time
    ensures Animated(tt.scale) ==> r <= tt.scale.frames[0].time
    ensures IsValid(tt) ==> || (Animated(tt.position) && r == tt.position.frames[0].time)
                            || (Animated(tt.rotation) && r == tt.rotation.frames[0].time)
                            || (Animated(tt.scale) && r == tt.scale.frames[0].time)
  {
    var (r0, set0) := (0.0, false);
    var (r1, set1) := if Animated(tt.position) then (TrackTime.StartTime(tt.position.frames), true) else (r0, set0);
    var (r2, set2) :=
      if Animated(tt.rotation) && (TrackTime.StartTime(tt.rotation.frames) < r1 || !set1)
      then (TrackTime.StartTime(tt.rotation.frames), true) else (r1, set1);
    var (r3, set3) :=
      if Animated(tt.scale) && (TrackTime.StartTime(tt.scale.frames) < r2 || !set2)
      then (TrackTime.StartTime(tt.scale.frames), true) else (r2, set2);
    r3
  }

  /** `GetEndTime`: the same scan keeping the latest end. */
  function EndTime(tt: TransformTrack): (r: real)
    ensures !IsValid(tt) ==> r == 0.0
    ensures Animated(tt.position) ==> tt.position.frames[|tt.position.frames| - 1].time <= r
    ensures Animated(tt.rotation) ==> tt.rotation.frames[|tt.rotation.frames| - 1].time <= r
    ensures Animated(tt.scale) ==> tt.scale.frames[|tt.scale.frames| - 1].time <= r
    ensures IsValid(tt) ==> || (Animated(tt.position) && r == tt.position.frames[|tt.position.frames| - 1].time)
                            || (Animated(tt.rotation) && r == tt.rotation.frames[|tt.rotation.frames| - 1].time)
                            || (Animated(tt.scale) && r == tt.scale.frames[|tt.scale.frames| - 1].time)
  {
    var (r0, set0) := (0.0, false);
    var (r1, set1) := if Animated(tt.position) then (TrackTime.EndTime(tt.position.frames), true) else (r0, set0);
    var (r2, set2) :=
      if Animated(tt.rotation) && (TrackTime.EndTime(tt.rotation.frames) > r1 || !set1)
      then (TrackTime.EndTime(tt.rotation.frames), true) else (r1, set1);
    var (r3, set3) :=
      if Animated(tt.scale) && (TrackTime.EndTime(tt.scale.frames) > r2 || !set2)
      then (TrackTime.EndTime(tt.scale.frames), true) else (r2, set2);
    r3
  }

  /** `Sample`: start from the reference transform and overwrite exactly the
      animated channels with their sampled values. */
  function Sample(tt: TransformTrack, ref: T.Transform, time: real, looping: bool, rsqrt: real -> real): (r: T.Transform)
    ensures r.position == (if Animated(tt.position) then SampleVec3(tt.position, time, looping) else ref.position)
    ensures r.rotation == (if Animated(tt.rotation) then SampleQuat(tt.rotation, time, looping, rsqrt) else ref.rotation)
    ensures r.scale == (if Animated(tt.scale) then SampleVec3(tt.scale, time, looping) else ref.scale)
  {
    var r1 := if Animated(tt.position) then ref.(position := SampleVec3(tt.position, time, looping)) else ref;
    var r2 := if Animated(tt.rotation) then r1.(rotation := SampleQuat(tt.rotation, time, looping, rsqrt)) else r1;
    if Animated(tt.scale) then r2.(scale := SampleVec3(tt.scale, time, looping)) else r2
  }

  /** A track without animated channels passes the reference through. */
  lemma SampleInvalidIsIdentity(tt: TransformTrack, ref: T.Transform, time: real, looping: bool, rsqrt: real -> real)
    requires !IsValid(tt)
    ensures Sample(tt, ref, time, looping, rsqrt) == ref
  {
  }

  /** Sampling does not depend on the reference in the animated channels: two
      references that differ only there give the same result. */
  lemma SampleIgnoresOverwrittenChannels(tt: TransformTrack, ref1: T.Transform, ref2: T.Transform,
                                         time: real, looping: bool, rsqrt: real -> real)
    requires Animated(tt.position) || ref1.position == ref2.position
    requires Animated(tt.rotation) || ref1.rotation == ref2.rotation
    requires Animated(tt.scale) || ref1.scale == ref2.scale
    ensures Sample(tt, ref1, time, looping, rsqrt) == Sample(tt, ref2, time, looping, rsqrt)
  {
  }

  /** For a valid track whose animated channels have sorted keyframes, the
      start is no later than the end. */
  lemma StartNotAfterEnd(tt: TransformTrack)
    requires IsValid(tt)
    requires Animated(tt.position) ==> Sorted(tt.position.frames)
    requires Animated(tt.rotation) ==> Sorted(tt.rotation.frames)
    requires Animated(tt.scale) ==> Sorted(tt.scale.frames)
    ensures StartTime(tt) < EndTime(tt)
  {
    if Animated(tt.position) {
      SortedBounds(tt.position.frames);
    } else if Animated(tt.rotation) {
      SortedBounds(tt.rotation.frames);
    } else {
      SortedBounds(tt.scale.frames);
    }
  }
}
