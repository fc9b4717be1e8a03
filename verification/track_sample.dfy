/** Sampling of the three track kinds: the scalar, vector and quaternion
    interpolation rules, the cubic Hermite blend, and the dispatch on the
    track's interpolation mode. The time logic they share is in `TrackTime`. */
module TrackSampling {
  import opened Options
  import opened TrackTime
  import V = Vectors
  import Q = Quaternions

  // ---------------------------------------------------------------------
  // Hermite basis
  // ---------------------------------------------------------------------

  /** The four cubic Hermite basis weights at t, for the first point, the
      second point, the first tangent and the second tangent. */
  datatype Basis = Basis(h1: real, h2: real, h3: real, h4: real)

  /** The weights reproduce the cubics 1, t, t^2 and t^3 from their values
      and slopes at 0 and 1, which determines all four of them. */
  function HermiteBasis(t: real): (b: Basis)
    ensures b.h1 + b.h2 == 1.0
    ensures b.h2 + b.h3 + b.h4 == t
    ensures b.h2 + 2.0 * b.h4 == t * t
    ensures b.h2 + 3.0 * b.h4 == t * t * t
    ensures t == 0.0 ==> b == Basis(1.0, 0.0, 0.0, 0.0)
    ensures t == 1.0 ==> b == Basis(0.0, 1.0, 0.0, 0.0)
  {
    var tt := t * t;
    var ttt := tt * t;
    Basis(2.0 * ttt - 3.0 * tt + 1.0, -2.0 * ttt + 3.0 * tt, ttt - 2.0 * tt + t, ttt - tt)
  }

  // ---------------------------------------------------------------------
  // Scalar tracks
  // ---------------------------------------------------------------------

  /** `Interpolate` on floats: a + (b - a) * t. */
  function InterpolateScalar(a: real, b: real, t: real): (r: real)
    ensures t == 0.0 ==> r == a
    ensures t == 1.0 ==> r == b
    ensures a == b ==> r == a
    ensures 0.0 <= t <= 1.0 && a <= b ==> a <= r <= b
    ensures 0.0 <= t <= 1.0 && b <= a ==> b <= r <= a
  {
    if 0.0 <= t <= 1.0 && a <= b then
      Between(a, b, t);
      a + (b - a) * t
    else if 0.0 <= t <= 1.0 then
      BetweenDown(a, b, t);
      a + (b - a) * t
    else
      a + (b - a) * t
  }

  lemma BetweenDown(a: real, b: real, t: real)
    requires b <= a && 0.0 <= t <= 1.0
    ensures b <= a + (b - a) * t <= a
  {
    Between(b, a, 1.0 - t);
    V.Mirror(a, b, t);
  }

  /** Blending from a to b at t is blending from b to a at 1 - t. */
  lemma InterpolateScalarSymmetric(a: real, b: real, t: real)
    ensures InterpolateScalar(a, b, t) == InterpolateScalar(b, a, 1.0 - t)
  {
    V.Mirror(a, b, t);
  }

  lemma Between(a: real, b: real, t: real)
    requires a <= b && 0.0 <= t <= 1.0
    ensures a <= a + (b - a) * t <= b
  {
    assert (b - a) * t <= (b - a) * 1.0;
  }

  /** `TrackScalar::Hermite`: the cubic through p1 and p2 with end slopes s1
      and s2. */
  function HermiteScalar(t: real, p1: real, s1: real, p2: real, s2: real): (r: real)
    ensures t == 0.0 ==> r == p1
    ensures t == 1.0 ==> r == p2
  {
    var b := HermiteBasis(t);
    p1 * b.h1 + p2 * b.h2 + s1 * b.h3 + s2 * b.h4
  }

  /** A line through p with slope s is reproduced exactly. */
  lemma HermiteReproducesLine(t: real, p: real, s: real)
    ensures HermiteScalar(t, p, s, p + s, s) == p + s * t
  {
    HermiteReproducesCubic(t, p, s, 0.0, 0.0);
  }

  /** The Hermite blend is exact on cubics: given the values and slopes at 0
      and 1 of a0 + a1 t + a2 t^2 + a3 t^3, it returns that polynomial. Since
      every choice of end values and slopes belongs to exactly one cubic,
      this characterises the blend completely. */
  lemma HermiteReproducesCubic(t: real, a0: real, a1: real, a2: real, a3: real)
    ensures HermiteScalar(t, a0, a1, a0 + a1 + a2 + a3, a1 + 2.0 * a2 + 3.0 * a3)
            == a0 + a1 * t + a2 * (t * t) + a3 * (t * t * t)
  {
    var b := HermiteBasis(t);
    Regroup(a0, a1, a2, a3, b.h1, b.h2, b.h3, b.h4);
  }

  lemma Regroup(a0: real, a1: real, a2: real, a3: real, h1: real, h2: real, h3: real, h4: real)
    ensures a0 * h1 + (a0 + a1 + a2 + a3) * h2 + a1 * h3 + (a1 + 2.0 * a2 + 3.0 * a3) * h4
            == a0 * (h1 + h2) + a1 * (h2 + h3 + h4) + a2 * (h2 + 2.0 * h4) + a3 * (h2 + 3.0 * h4)
  {
  }

  /** With flat tangents the Hermite blend of a constant stays constant. */
  lemma HermiteScalarFlat(t: real, p: real)
    ensures HermiteScalar(t, p, 0.0, p, 0.0) == p
  {
    var b := HermiteBasis(t);
    assert p * b.h1 + p * b.h2 == p * (b.h1 + b.h2);
  }

  function SampleLinearScalar(frames: seq<Frame<real>>, time: real, looping: bool): (r: real)
    ensures LocateSegment(frames, time, looping, ScalarKind).None? ==> r == 0.0
  {
    match LocateSegment(frames, time, looping, ScalarKind)
    case None => 0.0
    case Some(s) => LinearScalarOn(frames, s)
  }

  /** The linear blend across one segment. */
  function LinearScalarOn(frames: seq<Frame<real>>, s: Segment): real
    requires s.frame + 1 < |frames|
  {
    InterpolateScalar(frames[s.frame].value, frames[s.frame + 1].value, s.t)
  }

  /** The tangents are stored per unit of normalised segment time, so they
      are scaled by the segment's duration before the Hermite blend. */
  function SampleCubicScalar(frames: seq<Frame<real>>, time: real, looping: bool): (r: real)
    ensures LocateSegment(frames, time, looping, ScalarKind).None? ==> r == 0.0
  {
    match LocateSegment(frames, time, looping, ScalarKind)
    case None => 0.0
    case Some(s) => CubicScalarOn(frames, s)
  }

  /** The Hermite blend across one segment. */
  function CubicScalarOn(frames: seq<Frame<real>>, s: Segment): real
    requires s.frame + 1 < |frames|
  {
    HermiteScalar(s.t, frames[s.frame].value, frames[s.frame].outTangent * s.delta,
                  frames[s.frame + 1].value, frames[s.frame + 1].inTangent * s.delta)
  }

  /** `TrackScalar::Sample`: dispatch on the interpolation mode. */
  function SampleScalar(track: Track<real>, time: real, looping: bool): (r: real)
    ensures track.interpolation == Constant ==> r == SampleConstant(track.frames, time, looping, ScalarKind, 0.0)
    ensures track.interpolation == Linear ==> r == SampleLinearScalar(track.frames, time, looping)
    ensures track.interpolation == Cubic ==> r == SampleCubicScalar(track.frames, time, looping)
  {
    match track.interpolation
    case Constant => SampleConstant(track.frames, time, looping, ScalarKind, 0.0)
    case Linear => SampleLinearScalar(track.frames, time, looping)
    case Cubic => SampleCubicScalar(track.frames, time, looping)
  }

  /** Without looping, a sorted scalar track passes through its keyframes in
      every interpolation mode, and holds its first and last values outside
      its range in the linear and cubic modes. */
  lemma SampleScalarAtKeyframe(track: Track<real>, i: nat)
    requires |track.frames| >= 2 && Sorted(track.frames) && i <= |track.frames| - 2
    ensures SampleScalar(track, track.frames[i].time, false) == track.frames[i].value
  {
    LocateSegmentAtKeyframe(track.frames, i, ScalarKind);
    ConstantHoldsSegmentStart(track.frames, track.frames[i].time, false, ScalarKind, 0.0);
  }

  lemma SampleScalarOutsideRange(track: Track<real>, time: real)
    requires |track.frames| >= 2 && Sorted(track.frames) && track.interpolation != Constant
    ensures var n := |track.frames|;
            && (time <= track.frames[0].time ==> SampleScalar(track, time, false) == track.frames[0].value)
            && (time >= track.frames[n - 1].time ==> SampleScalar(track, time, false) == track.frames[n - 1].value)
  {
    if time <= track.frames[0].time {
      LocateSegmentBeforeStart(track.frames, time, ScalarKind);
    }
    if time >= track.frames[|track.frames| - 1].time {
      LocateSegmentAfterEnd(track.frames, time, ScalarKind);
    }
  }

  /** A looping scalar track repeats with its length. */
  lemma SampleScalarPeriodic(track: Track<real>, time: real, k: int)
    requires |track.frames| >= 2 && track.frames[0].time < track.frames[|track.frames| - 1].time
    ensures var span := track.frames[|track.frames| - 1].time - track.frames[0].time;
            SampleScalar(track, ShiftBy(time, span, k), true) == SampleScalar(track, time, true)
  {
    var frames := track.frames;
    var shifted := ShiftBy(time, frames[|frames| - 1].time - frames[0].time, k);
    LocateSegmentPeriodic(frames, time, ScalarKind, k);
    match track.interpolation
    case Constant => SampleConstantPeriodic(frames, time, ScalarKind, 0.0, k);
    case Linear => SameSegmentScalar(frames, shifted, time, true);
    case Cubic => SameSegmentScalar(frames, shifted, time, true);
  }

  /** With or without looping, a sorted scalar track sampled at a time
      inside segment i, which lasts d and of which the fraction u has
      elapsed, holds keyframe i's value in constant mode, blends keyframes i
      and i + 1 linearly by u in linear mode, and in cubic mode forms the
      Hermite blend at u with the keyframes' tangents scaled by d. */
  lemma SampleScalarInside(track: Track<real>, time: real, looping: bool, i: nat, u: real, d: real)
    requires Sorted(track.frames) && i + 1 < |track.frames|
    requires track.frames[i].time <= time < track.frames[i + 1].time
    requires d == track.frames[i + 1].time - track.frames[i].time && u * d == time - track.frames[i].time
    ensures var f := track.frames;
            && (track.interpolation == Constant ==> SampleScalar(track, time, looping) == f[i].value)
            && (track.interpolation == Linear ==>
                  SampleScalar(track, time, looping) == InterpolateScalar(f[i].value, f[i + 1].value, u))
            && (track.interpolation == Cubic ==>
                  SampleScalar(track, time, looping)
                  == HermiteScalar(u, f[i].value, f[i].outTangent * d, f[i + 1].value, f[i + 1].inTangent * d))
  {
    LocateSegmentInside(track.frames, time, looping, ScalarKind, i, u, d);
    ScalarOnSegment(track, time, looping, i, u, d);
  }

  /** Scalar sampling in each mode across a located segment. */
  lemma ScalarOnSegment(track: Track<real>, time: real, looping: bool, i: nat, u: real, d: real)
    requires LocateSegment(track.frames, time, looping, ScalarKind) == Some(Segment(i, u, d))
    ensures var f := track.frames;
            && i + 1 < |f|
            && (track.interpolation == Constant ==> SampleScalar(track, time, looping) == f[i].value)
            && (track.interpolation == Linear ==>
                  SampleScalar(track, time, looping) == InterpolateScalar(f[i].value, f[i + 1].value, u))
            && (track.interpolation == Cubic ==>
                  SampleScalar(track, time, looping)
                  == HermiteScalar(u, f[i].value, f[i].outTangent * d, f[i + 1].value, f[i + 1].inTangent * d))
  {
    if track.interpolation == Linear {
      LinearOnSegment(track, time, looping, i, u, d);
    } else if track.interpolation == Cubic {
      CubicOnSegment(track, time, looping, i, u, d);
    }
  }

  lemma LinearOnSegment(track: Track<real>, time: real, looping: bool, i: nat, u: real, d: real)
    requires LocateSegment(track.frames, time, looping, ScalarKind) == Some(Segment(i, u, d))
    requires track.interpolation == Linear
    ensures i + 1 < |track.frames|
    ensures SampleScalar(track, time, looping) == InterpolateScalar(track.frames[i].value, track.frames[i + 1].value, u)
  {
    ScalarBlendAt(track.frames, i, u, d, SampleLinearScalar(track.frames, time, looping), false);
  }

  lemma CubicOnSegment(track: Track<real>, time: real, looping: bool, i: nat, u: real, d: real)
    requires LocateSegment(track.frames, time, looping, ScalarKind) == Some(Segment(i, u, d))
    requires track.interpolation == Cubic
    ensures i + 1 < |track.frames|
    ensures var f := track.frames;
            SampleScalar(track, time, looping)
            == HermiteScalar(u, f[i].value, f[i].outTangent * d, f[i + 1].value, f[i + 1].inTangent * d)
  {
    ScalarBlendAt(track.frames, i, u, d, SampleCubicScalar(track.frames, time, looping), true);
  }

  /** A value computed by `LinearScalarOn` or `CubicScalarOn` on segment i,
      written out. */
  lemma ScalarBlendAt(frames: seq<Frame<real>>, i: nat, u: real, d: real, x: real, cubic: bool)
    requires i + 1 < |frames|
    requires x == if cubic then CubicScalarOn(frames, Segment(i, u, d)) else LinearScalarOn(frames, Segment(i, u, d))
    ensures !cubic ==> x == InterpolateScalar(frames[i].value, frames[i + 1].value, u)
    ensures cubic ==> x == HermiteScalar(u, frames[i].value, frames[i].outTangent * d,
                                         frames[i + 1].value, frames[i + 1].inTangent * d)
  {
  }

  /** When both tangents of a segment equal its slope, cubic sampling inside
      it is linear sampling. */
  lemma CubicMatchesLinearScalar(frames: seq<Frame<real>>, time: real, looping: bool, i: nat, u: real, d: real)
    requires Sorted(frames) && i + 1 < |frames|
    requires frames[i].time <= time < frames[i + 1].time
    requires d == frames[i + 1].time - frames[i].time && u * d == time - frames[i].time
    requires frames[i].outTangent * d == frames[i + 1].value - frames[i].value
    requires frames[i + 1].inTangent * d == frames[i + 1].value - frames[i].value
    ensures SampleCubicScalar(frames, time, looping) == SampleLinearScalar(frames, time, looping)
  {
    LocateSegmentInside(frames, time, looping, ScalarKind, i, u, d);
    SegmentCubicIsLinear(frames, time, looping, i, u, d);
  }

  lemma SegmentCubicIsLinear(frames: seq<Frame<real>>, time: real, looping: bool, i: nat, u: real, d: real)
    requires LocateSegment(frames, time, looping, ScalarKind) == Some(Segment(i, u, d))
    requires frames[i].outTangent * d == frames[i + 1].value - frames[i].value
    requires frames[i + 1].inTangent * d == frames[i + 1].value - frames[i].value
    ensures SampleCubicScalar(frames, time, looping) == SampleLinearScalar(frames, time, looping)
  {
    ScalarBlendAt(frames, i, u, d, SampleCubicScalar(frames, time, looping), true);
    ScalarBlendAt(frames, i, u, d, SampleLinearScalar(frames, time, looping), false);
    HermiteAlongSegment(u, frames[i].value, frames[i + 1].value, frames[i].outTangent * d, frames[i + 1].inTangent * d);
  }

  /** The Hermite blend whose slopes both equal the change between its points
      is the linear blend. */
  lemma HermiteAlongSegment(u: real, p1: real, p2: real, s1: real, s2: real)
    requires s1 == p2 - p1 && s2 == p2 - p1
    ensures HermiteScalar(u, p1, s1, p2, s2) == InterpolateScalar(p1, p2, u)
  {
    HermiteReproducesLine(u, p1, p2 - p1);
    assert p1 + (p2 - p1) == p2;
  }

  /** Two times that fall on the same segment sample to the same value. */
  lemma SameSegmentScalar(frames: seq<Frame<real>>, t1: real, t2: real, looping: bool)
    requires LocateSegment(frames, t1, looping, ScalarKind) == LocateSegment(frames, t2, looping, ScalarKind)
    ensures SampleLinearScalar(frames, t1, looping) == SampleLinearScalar(frames, t2, looping)
    ensures SampleCubicScalar(frames, t1, looping) == SampleCubicScalar(frames, t2, looping)
  {
  }

  /** A two-keyframe ramp from 0 at time 0 to 10 at time 1: halfway through,
      linear and flat-tangent cubic sampling give 5, and constant sampling
      gives the first keyframe's value. */
  lemma RampExample()
    ensures var frames := [Frame(0.0, 0.0, 0.0, 0.0), Frame(10.0, 0.0, 0.0, 1.0)];
            && SampleScalar(Track(frames, Linear), 0.5, false) == 5.0
            && SampleScalar(Track(frames, Cubic), 0.5, false) == 5.0
            && SampleScalar(Track(frames, Constant), 0.5, false) == 0.0
  {
    var frames := [Frame(0.0, 0.0, 0.0, 0.0), Frame(10.0, 0.0, 0.0, 1.0)];
    RampSegment(frames);
    assert HermiteBasis(0.5) == Basis(0.5, 0.5, 0.125, -0.125);
    assert HermiteScalar(0.5, 0.0, 0.0 * 1.0, 10.0, 0.0 * 1.0) == 5.0;
  }

  lemma RampSegment(frames: seq<Frame<real>>)
    requires frames == [Frame(0.0, 0.0, 0.0, 0.0), Frame(10.0, 0.0, 0.0, 1.0)]
    ensures FrameIndex(frames, 0.5, false, ScalarKind) == 0
    ensures LocateSegment(frames, 0.5, false, ScalarKind) == Some(Segment(0, 0.5, 1.0))
  {
    assert FrameIndex(frames, 0.5, false, ScalarKind) == 0;
    assert AdjustTime(frames, 0.5, false, ScalarKind) == 0.5;
  }

  // ---------------------------------------------------------------------
  // Vector tracks
  // ---------------------------------------------------------------------

  /** `TrackVec3::Hermite`, the same blend with vector points and slopes. */
  function HermiteVec3(t: real, p1: V.Vec3, s1: V.Vec3, p2: V.Vec3, s2: V.Vec3): (r: V.Vec3)
    ensures r == V.Vec3(HermiteScalar(t, p1.x, s1.x, p2.x, s2.x),
                        HermiteScalar(t, p1.y, s1.y, p2.y, s2.y),
                        HermiteScalar(t, p1.z, s1.z, p2.z, s2.z))
    ensures t == 0.0 ==> r == p1
    ensures t == 1.0 ==> r == p2
  {
    var b := HermiteBasis(t);
    V.Add(V.Add(V.Add(V.Scale(p1, b.h1), V.Scale(p2, b.h2)), V.Scale(s1, b.h3)), V.Scale(s2, b.h4))
  }

  function SampleLinearVec3(frames: seq<Frame<V.Vec3>>, time: real, looping: bool): (r: V.Vec3)
    ensures LocateSegment(frames, time, looping, Vec3Kind).None? ==> r == V.Zero
  {
    match LocateSegment(frames, time, looping, Vec3Kind)
    case None => V.Zero
    case Some(s) => LinearVec3On(frames, s)
  }

  function LinearVec3On(frames: seq<Frame<V.Vec3>>, s: Segment): V.Vec3
    requires s.frame + 1 < |frames|
  {
    V.Lerp(frames[s.frame].value, frames[s.frame + 1].value, s.t)
  }

  function SampleCubicVec3(frames: seq<Frame<V.Vec3>>, time: real, looping: bool): (r: V.Vec3)
    ensures LocateSegment(frames, time, looping, Vec3Kind).None? ==> r == V.Zero
  {
    match LocateSegment(frames, time, looping, Vec3Kind)
    case None => V.Zero
    case Some(s) => CubicVec3On(frames, s)
  }

  function CubicVec3On(frames: seq<Frame<V.Vec3>>, s: Segment): V.Vec3
    requires s.frame + 1 < |frames|
  {
    HermiteVec3(s.t, frames[s.frame].value, V.Scale(frames[s.frame].outTangent, s.delta),
                frames[s.frame + 1].value, V.Scale(frames[s.frame + 1].inTangent, s.delta))
  }

  /** `TrackVec3::Sample`. */
  function SampleVec3(track: Track<V.Vec3>, time: real, looping: bool): (r: V.Vec3)
    ensures track.interpolation == Constant ==> r == SampleConstant(track.frames, time, looping, Vec3Kind, V.Zero)
    ensures track.interpolation == Linear ==> r == SampleLinearVec3(track.frames, time, looping)
    ensures track.interpolation == Cubic ==> r == SampleCubicVec3(track.frames, time, looping)
  {
    match track.interpolation
    case Constant => SampleConstant(track.frames, time, looping, Vec3Kind, V.Zero)
    case Linear => SampleLinearVec3(track.frames, time, looping)
    case Cubic => SampleCubicVec3(track.frames, time, looping)
  }

  /** Without looping, a sorted vector track passes through its keyframes. */
  lemma SampleVec3AtKeyframe(track: Track<V.Vec3>, i: nat)
    requires |track.frames| >= 2 && Sorted(track.frames) && i <= |track.frames| - 2
    ensures SampleVec3(track, track.frames[i].time, false) == track.frames[i].value
  {
    LocateSegmentAtKeyframe(track.frames, i, Vec3Kind);
    ConstantHoldsSegmentStart(track.frames, track.frames[i].time, false, Vec3Kind, V.Zero);
  }

  lemma SampleVec3OutsideRange(track: Track<V.Vec3>, time: real)
    requires |track.frames| >= 2 && Sorted(track.frames) && track.interpolation != Constant
    ensures var n := |track.frames|;
            && (time <= track.frames[0].time ==> SampleVec3(track, time, false) == track.frames[0].value)
            && (time >= track.frames[n - 1].time ==> SampleVec3(track, time, false) == track.frames[n - 1].value)
  {
    if time <= track.frames[0].time {
      LocateSegmentBeforeStart(track.frames, time, Vec3Kind);
    }
    if time >= track.frames[|track.frames| - 1].time {
      LocateSegmentAfterEnd(track.frames, time, Vec3Kind);
    }
  }

  /** With or without looping, a sorted vector track sampled inside segment
      i, which lasts d and of which the fraction u has elapsed: keyframe i's
      value, the linear blend at u, or the Hermite blend at u with tangents
      scaled by d, by mode. */
  lemma SampleVec3Inside(track: Track<V.Vec3>, time: real, looping: bool, i: nat, u: real, d: real)
    requires Sorted(track.frames) && i + 1 < |track.frames|
    requires track.frames[i].time <= time < track.frames[i + 1].time
    requires d == track.frames[i + 1].time - track.frames[i].time && u * d == time - track.frames[i].time
    ensures var f := track.frames;
            && (track.interpolation == Constant ==> SampleVec3(track, time, looping) == f[i].value)
            && (track.interpolation == Linear ==>
                  SampleVec3(track, time, looping) == V.Lerp(f[i].value, f[i + 1].value, u))
            && (track.interpolation == Cubic ==>
                  SampleVec3(track, time, looping)
                  == HermiteVec3(u, f[i].value, V.Scale(f[i].outTangent, d), f[i + 1].value, V.Scale(f[i + 1].inTangent, d)))
  {
    LocateSegmentInside(track.frames, time, looping, Vec3Kind, i, u, d);
  }

  /** When both tangents of a segment equal its slope, cubic vector sampling
      inside it is linear sampling. */
  lemma CubicMatchesLinearVec3(frames: seq<Frame<V.Vec3>>, time: real, looping: bool, i: nat, u: real, d: real)
    requires Sorted(frames) && i + 1 < |frames|
    requires frames[i].time <= time < frames[i + 1].time
    requires d == frames[i + 1].time - frames[i].time && u * d == time - frames[i].time
    requires V.Scale(frames[i].outTangent, d) == V.Sub(frames[i + 1].value, frames[i].value)
    requires V.Scale(frames[i + 1].inTangent, d) == V.Sub(frames[i + 1].value, frames[i].value)
    ensures SampleCubicVec3(frames, time, looping) == SampleLinearVec3(frames, time, looping)
  {
    LocateSegmentInside(frames, time, looping, Vec3Kind, i, u, d);
    SegmentCubicIsLinearVec3(frames, time, looping, i, u, d);
  }

  lemma SegmentCubicIsLinearVec3(frames: seq<Frame<V.Vec3>>, time: real, looping: bool, i: nat, u: real, d: real)
    requires LocateSegment(frames, time, looping, Vec3Kind) == Some(Segment(i, u, d))
    requires V.Scale(frames[i].outTangent, d) == V.Sub(frames[i + 1].value, frames[i].value)
    requires V.Scale(frames[i + 1].inTangent, d) == V.Sub(frames[i + 1].value, frames[i].value)
    ensures SampleCubicVec3(frames, time, looping) == SampleLinearVec3(frames, time, looping)
  {
    var p1, p2 := frames[i].value, frames[i + 1].value;
    var s1, s2 := V.Scale(frames[i].outTangent, d), V.Scale(frames[i + 1].inTangent, d);
    assert SampleCubicVec3(frames, time, looping) == HermiteVec3(u, p1, s1, p2, s2);
    assert SampleLinearVec3(frames, time, looping) == V.Lerp(p1, p2, u);
    HermiteAlongSegmentVec3(u, p1, p2, s1, s2);
  }

  lemma HermiteAlongSegmentVec3(u: real, p1: V.Vec3, p2: V.Vec3, s1: V.Vec3, s2: V.Vec3)
    requires s1 == V.Sub(p2, p1) && s2 == V.Sub(p2, p1)
    ensures HermiteVec3(u, p1, s1, p2, s2) == V.Lerp(p1, p2, u)
  {
    HermiteAlongSegment(u, p1.x, p2.x, s1.x, s2.x);
    HermiteAlongSegment(u, p1.y, p2.y, s1.y, s2.y);
    HermiteAlongSegment(u, p1.z, p2.z, s1.z, s2.z);
  }

  lemma SampleVec3Periodic(track: Track<V.Vec3>, time: real, k: int)
    requires |track.frames| >= 2 && track.frames[0].time < track.frames[|track.frames| - 1].time
    ensures var span := track.frames[|track.frames| - 1].time - track.frames[0].time;
            SampleVec3(track, ShiftBy(time, span, k), true) == SampleVec3(track, time, true)
  {
    LocateSegmentPeriodic(track.frames, time, Vec3Kind, k);
    SampleConstantPeriodic(track.frames, time, Vec3Kind, V.Zero, k);
  }

  // ---------------------------------------------------------------------
  // Quaternion tracks
  // ---------------------------------------------------------------------

  /** `Neighborhood`: b, negated when it lies in the opposite hemisphere of
      a, so that blending takes the short way round. */
  function Neighborhood(a: Q.Quat, b: Q.Quat): (r: Q.Quat)
    ensures Q.Dot(a, r) >= 0.0
    ensures Q.Dot(a, b) >= 0.0 ==> r == b
    ensures Q.Dot(a, b) < 0.0 ==> r == Q.Neg(b)
  {
    Q.DotLaws(a, b);
    if Q.Dot(a, b) < 0.0 then Q.Neg(b) else b
  }

  /** `Interpolate` on quaternions: a normalised linear blend towards the
      neighbourhood-corrected b. */
  function InterpolateQuat(a: Q.Quat, b: Q.Quat, t: real, rsqrt: real -> real): (r: Q.Quat)
    ensures t == 0.0 ==> r == Q.Normalized(a, rsqrt)
    ensures t == 1.0 ==> r == Q.Normalized(Neighborhood(a, b), rsqrt)
  {
    Q.Normalized(Q.Mix(a, Neighborhood(a, b), t), rsqrt)
  }

  /** Since q and -q are the same rotation, interpolating towards either
      gives the same result unless the two keys are orthogonal. */
  lemma InterpolateQuatIgnoresSign(a: Q.Quat, b: Q.Quat, t: real, rsqrt: real -> real)
    requires Q.Dot(a, b) != 0.0
    ensures InterpolateQuat(a, Q.Neg(b), t, rsqrt) == InterpolateQuat(a, b, t, rsqrt)
  {
    Q.DotLaws(a, b);
    Q.NegInvolution(b);
  }

  /** `TrackQuat::Hermite`: the second point is neighbourhood-corrected
      against the first, the blend is formed as for vectors, and the result
      is normalised. */
  function HermiteQuat(t: real, p1: Q.Quat, s1: Q.Quat, p2: Q.Quat, s2: Q.Quat, rsqrt: real -> real): (r: Q.Quat)
    ensures t == 0.0 ==> r == Q.Normalized(p1, rsqrt)
    ensures t == 1.0 ==> r == Q.Normalized(Neighborhood(p1, p2), rsqrt)
  {
    var b := HermiteBasis(t);
    var q2 := Neighborhood(p1, p2);
    var blend := Q.Add(Q.Add(Q.Add(Q.Scale(p1, b.h1), Q.Scale(q2, b.h2)), Q.Scale(s1, b.h3)), Q.Scale(s2, b.h4));
    Q.Normalized(blend, rsqrt)
  }

  /** Only the second point is neighbourhood-corrected, so negating it
      leaves the blend unchanged unless the points are orthogonal. */
  lemma HermiteQuatIgnoresSign(t: real, p1: Q.Quat, s1: Q.Quat, p2: Q.Quat, s2: Q.Quat, rsqrt: real -> real)
    requires Q.Dot(p1, p2) != 0.0
    ensures HermiteQuat(t, p1, s1, Q.Neg(p2), s2, rsqrt) == HermiteQuat(t, p1, s1, p2, s2, rsqrt)
  {
    Q.DotLaws(p1, p2);
    Q.NegInvolution(p2);
  }

  function SampleLinearQuat(frames: seq<Frame<Q.Quat>>, time: real, looping: bool, rsqrt: real -> real): (r: Q.Quat)
    ensures LocateSegment(frames, time, looping, QuatKind).None? ==> r == Q.Identity
  {
    match LocateSegment(frames, time, looping, QuatKind)
    case None => Q.Identity
    case Some(s) => LinearQuatOn(frames, s, rsqrt)
  }

  function LinearQuatOn(frames: seq<Frame<Q.Quat>>, s: Segment, rsqrt: real -> real): Q.Quat
    requires s.frame + 1 < |frames|
  {
    InterpolateQuat(frames[s.frame].value, frames[s.frame + 1].value, s.t, rsqrt)
  }

  /** Cubic quaternion sampling normalises both keyframe values before the
      blend. */
  function SampleCubicQuat(frames: seq<Frame<Q.Quat>>, time: real, looping: bool, rsqrt: real -> real): (r: Q.Quat)
    ensures LocateSegment(frames, time, looping, QuatKind).None? ==> r == Q.Identity
  {
    match LocateSegment(frames, time, looping, QuatKind)
    case None => Q.Identity
    case Some(s) => CubicQuatOn(frames, s, rsqrt)
  }

  function CubicQuatOn(frames: seq<Frame<Q.Quat>>, s: Segment, rsqrt: real -> real): Q.Quat
    requires s.frame + 1 < |frames|
  {
    HermiteQuat(s.t, Q.Normalized(frames[s.frame].value, rsqrt), Q.Scale(frames[s.frame].outTangent, s.delta),
                Q.Normalized(frames[s.frame + 1].value, rsqrt), Q.Scale(frames[s.frame + 1].inTangent, s.delta),
                rsqrt)
  }

  /** `TrackQuat::Sample`. The default value of a quaternion is the identity
      rotation. */
  function SampleQuat(track: Track<Q.Quat>, time: real, looping: bool, rsqrt: real -> real): (r: Q.Quat)
    ensures track.interpolation == Constant ==> r == SampleConstant(track.frames, time, looping, QuatKind, Q.Identity)
    ensures track.interpolation == Linear ==> r == SampleLinearQuat(track.frames, time, looping, rsqrt)
    ensures track.interpolation == Cubic ==> r == SampleCubicQuat(track.frames, time, looping, rsqrt)
  {
    match track.interpolation
    case Constant => SampleConstant(track.frames, time, looping, QuatKind, Q.Identity)
    case Linear => SampleLinearQuat(track.frames, time, looping, rsqrt)
    case Cubic => SampleCubicQuat(track.frames, time, looping, rsqrt)
  }

  /** Without looping, linear quaternion sampling at a keyframe gives that
      keyframe's rotation, normalised. */
  lemma SampleQuatAtKeyframe(track: Track<Q.Quat>, i: nat, rsqrt: real -> real)
    requires |track.frames| >= 2 && Sorted(track.frames) && i <= |track.frames| - 2
    requires track.interpolation == Linear
    ensures SampleQuat(track, track.frames[i].time, false, rsqrt) == Q.Normalized(track.frames[i].value, rsqrt)
  {
    LocateSegmentAtKeyframe(track.frames, i, QuatKind);
  }

  /** With or without looping, a sorted quaternion track sampled inside
      segment i, which lasts d and of which the fraction u has elapsed:
      keyframe i's rotation, the normalised neighbourhood blend at u, or the
      Hermite blend at u of the normalised keyframes with tangents scaled by
      d, by mode. */
  lemma SampleQuatInside(track: Track<Q.Quat>, time: real, looping: bool, i: nat, u: real, d: real, rsqrt: real -> real)
    requires Sorted(track.frames) && i + 1 < |track.frames|
    requires track.frames[i].time <= time < track.frames[i + 1].time
    requires d == track.frames[i + 1].time - track.frames[i].time && u * d == time - track.frames[i].time
    ensures var f := track.frames;
            && (track.interpolation == Constant ==> SampleQuat(track, time, looping, rsqrt) == f[i].value)
            && (track.interpolation == Linear ==>
                  SampleQuat(track, time, looping, rsqrt) == InterpolateQuat(f[i].value, f[i + 1].value, u, rsqrt))
            && (track.interpolation == Cubic ==>
                  SampleQuat(track, time, looping, rsqrt)
                  == HermiteQuat(u, Q.Normalized(f[i].value, rsqrt), Q.Scale(f[i].outTangent, d),
                                 Q.Normalized(f[i + 1].value, rsqrt), Q.Scale(f[i + 1].inTangent, d), rsqrt))
  {
    LocateSegmentInside(track.frames, time, looping, QuatKind, i, u, d);
    QuatOnSegment(track, time, looping, i, u, d, rsqrt);
  }

  /** Quaternion sampling in each mode across a located segment. */
  lemma QuatOnSegment(track: Track<Q.Quat>, time: real, looping: bool, i: nat, u: real, d: real, rsqrt: real -> real)
    requires LocateSegment(track.frames, time, looping, QuatKind) == Some(Segment(i, u, d))
    ensures var f := track.frames;
            && i + 1 < |f|
            && (track.interpolation == Constant ==> SampleQuat(track, time, looping, rsqrt) == f[i].value)
            && (track.interpolation == Linear ==>
                  SampleQuat(track, time, looping, rsqrt) == InterpolateQuat(f[i].value, f[i + 1].value, u, rsqrt))
            && (track.interpolation == Cubic ==>
                  SampleQuat(track, time, looping, rsqrt)
                  == HermiteQuat(u, Q.Normalized(f[i].value, rsqrt), Q.Scale(f[i].outTangent, d),
                                 Q.Normalized(f[i + 1].value, rsqrt), Q.Scale(f[i + 1].inTangent, d), rsqrt))
  {
    var x := SampleQuat(track, time, looping, rsqrt);
    if track.interpolation == Linear {
      QuatBlendAt(track.frames, i, u, d, x, false, rsqrt);
    } else if track.interpolation == Cubic {
      QuatBlendAt(track.frames, i, u, d, x, true, rsqrt);
    }
  }

  /** A value computed by `LinearQuatOn` or `CubicQuatOn` on segment i,
      written out. */
  lemma QuatBlendAt(frames: seq<Frame<Q.Quat>>, i: nat, u: real, d: real, x: Q.Quat, cubic: bool, rsqrt: real -> real)
    requires i + 1 < |frames|
    requires x == if cubic then CubicQuatOn(frames, Segment(i, u, d), rsqrt) else LinearQuatOn(frames, Segment(i, u, d), rsqrt)
    ensures !cubic ==> x == InterpolateQuat(frames[i].value, frames[i + 1].value, u, rsqrt)
    ensures cubic ==> x == HermiteQuat(u, Q.Normalized(frames[i].value, rsqrt), Q.Scale(frames[i].outTangent, d),
                                       Q.Normalized(frames[i + 1].value, rsqrt), Q.Scale(frames[i + 1].inTangent, d), rsqrt)
  {
  }

  lemma SampleQuatPeriodic(track: Track<Q.Quat>, time: real, k: int, rsqrt: real -> real)
    requires |track.frames| >= 2 && track.frames[0].time < track.frames[|track.frames| - 1].time
    ensures var span := track.frames[|track.frames| - 1].time - track.frames[0].time;
            SampleQuat(track, ShiftBy(time, span, k), true, rsqrt) == SampleQuat(track, time, true, rsqrt)
  {
    var frames := track.frames;
    var shifted := ShiftBy(time, frames[|frames| - 1].time - frames[0].time, k);
    LocateSegmentPeriodic(frames, time, QuatKind, k);
    SampleConstantPeriodic(frames, time, QuatKind, Q.Identity, k);
    SameSampleQuat(track, shifted, time, rsqrt);
  }

  /** Two looping times that select the same keyframe and the same segment
      sample to the same rotation. */
  lemma SameSampleQuat(track: Track<Q.Quat>, t1: real, t2: real, rsqrt: real -> real)
    requires LocateSegment(track.frames, t1, true, QuatKind) == LocateSegment(track.frames, t2, true, QuatKind)
    requires SampleConstant(track.frames, t1, true, QuatKind, Q.Identity) == SampleConstant(track.frames, t2, true, QuatKind, Q.Identity)
    ensures SampleQuat(track, t1, true, rsqrt) == SampleQuat(track, t2, true, rsqrt)
  {
  }
}
