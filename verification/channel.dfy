/** Building vector and quaternion tracks from an animation channel's flat
    float arrays: one time per keyframe and, for each keyframe, a block of
    floats at a fixed stride. Cubic-spline channels store the in-tangent,
    the value and the out-tangent of a keyframe one after another (glTF 2.0,
    section 3.11 and Appendix C); other channels store only the value, and
    their tangents are zero. */
module Channels {
  import opened TrackTime
  import V = Vectors
  import Q = Quaternions

  /** The sampler's interpolation as the glTF file names it. */
  datatype GltfInterpolation = GltfStep | GltfLinear | GltfCubicSpline

  /** Linear and cubic-spline map to their own modes; anything else is
      constant. */
  function ToInterpolation(g: GltfInterpolation): (r: Interpolation)
    ensures r == Cubic <==> g == GltfCubicSpline
    ensures r == Linear <==> g == GltfLinear
    ensures r == Constant <==> g == GltfStep
  {
    match g
    case GltfLinear => Linear
    case GltfCubicSpline => Cubic
    case GltfStep => Constant
  }

  /** The floats one keyframe occupies: three blocks of `comps` for a cubic
      channel, one otherwise. */
  function Width(comps: nat, cubic: bool): nat
  {
    if cubic then 3 * comps else comps
  }

  /** The number of floats between consecutive keyframes: the value count
      divided by the time count, in unsigned integer division. */
  function Stride(times: seq<real>, values: seq<real>): nat
    requires |times| > 0
  {
    |values| / |times|
  }

  /** What the unpacking loop needs to stay inside the arrays: at least one
      time (the stride divides by their count) and a stride wide enough for
      one keyframe's floats. */
  predicate Fits(times: seq<real>, values: seq<real>, comps: nat, cubic: bool)
  {
    |times| > 0 && Width(comps, cubic) <= Stride(times, values)
  }

  /** Every float the loop reads for keyframe i lies inside the array. */
  lemma SlotInRange(n: nat, stride: nat, len: nat, i: nat, k: nat)
    requires n > 0 && stride == len / n && i < n && k < stride
    ensures i * stride + k < len
  {
    assert i * stride + k < (i + 1) * stride;
    MulMonotone(i + 1, n, stride);
    assert n * stride <= len;
  }

  lemma MulMonotone(a: nat, b: nat, c: nat)
    requires a <= b
    ensures a * c <= b * c
  {
  }

  function Vec3At(values: seq<real>, at: nat): V.Vec3
    requires at + 3 <= |values|
  {
    V.Vec3(values[at], values[at + 1], values[at + 2])
  }

  function QuatAt(values: seq<real>, at: nat): Q.Quat
    requires at + 4 <= |values|
  {
    Q.Quat(values[at], values[at + 1], values[at + 2], values[at + 3])
  }

  /** Keyframe i of a vector channel: its time, and its floats read from
      the start of its block in the order in-tangent, value, out-tangent. */
  function Vec3FrameAt(times: seq<real>, values: seq<real>, cubic: bool, i: nat): Frame<V.Vec3>
    requires Fits(times, values, 3, cubic) && i < |times|
  {
    var stride := Stride(times, values);
    SlotInRange(|times|, stride, |values|, i, Width(3, cubic) - 1);
    Vec3FrameFrom(values, i * stride, cubic, times[i])
  }

  /** The keyframe whose block starts at `base`. */
  function Vec3FrameFrom(values: seq<real>, base: nat, cubic: bool, time: real): Frame<V.Vec3>
    requires base + Width(3, cubic) <= |values|
  {
    if cubic then Frame(Vec3At(values, base + 3), Vec3At(values, base), Vec3At(values, base + 6), time)
    else Frame(Vec3At(values, base), V.Zero, V.Zero, time)
  }

  /** `TrackVec3FromChannel` past the accessor reads: one keyframe per
      time. */
  function UnpackVec3(g: GltfInterpolation, times: seq<real>, values: seq<real>): (r: Track<V.Vec3>)
    requires Fits(times, values, 3, g == GltfCubicSpline)
    ensures r.interpolation == ToInterpolation(g) && |r.frames| == |times|
    ensures forall i :: 0 <= i < |times| ==> r.frames[i].time == times[i]
    ensures g != GltfCubicSpline ==> forall i :: 0 <= i < |times| ==>
              r.frames[i].inTangent == V.Zero && r.frames[i].outTangent == V.Zero
  {
    var cubic := g == GltfCubicSpline;
    Track(seq(|times|, i requires 0 <= i < |times| => Vec3FrameAt(times, values, cubic, i)), ToInterpolation(g))
  }

  /** Keyframe i of a quaternion channel, read like a vector keyframe with
      four components (x, y, z, w). */
  function QuatFrameAt(times: seq<real>, values: seq<real>, cubic: bool, i: nat): Frame<Q.Quat>
    requires Fits(times, values, 4, cubic) && i < |times|
  {
    var stride := Stride(times, values);
    SlotInRange(|times|, stride, |values|, i, Width(4, cubic) - 1);
    QuatFrameFrom(values, i * stride, cubic, times[i])
  }

  function QuatFrameFrom(values: seq<real>, base: nat, cubic: bool, time: real): Frame<Q.Quat>
    requires base + Width(4, cubic) <= |values|
  {
    if cubic then Frame(QuatAt(values, base + 4), QuatAt(values, base), QuatAt(values, base + 8), time)
    else Frame(QuatAt(values, base), Q.Quat(0.0, 0.0, 0.0, 0.0), Q.Quat(0.0, 0.0, 0.0, 0.0), time)
  }

  /** `TrackQuatFromChannel` past the accessor reads. */
  function UnpackQuat(g: GltfInterpolation, times: seq<real>, values: seq<real>): (r: Track<Q.Quat>)
    requires Fits(times, values, 4, g == GltfCubicSpline)
    ensures r.interpolation == ToInterpolation(g) && |r.frames| == |times|
    ensures forall i :: 0 <= i < |times| ==> r.frames[i].time == times[i]
    ensures g != GltfCubicSpline ==> forall i :: 0 <= i < |times| ==>
              r.frames[i].inTangent == Q.Quat(0.0, 0.0, 0.0, 0.0) && r.frames[i].outTangent == Q.Quat(0.0, 0.0, 0.0, 0.0)
  {
    var cubic := g == GltfCubicSpline;
    Track(seq(|times|, i requires 0 <= i < |times| => QuatFrameAt(times, values, cubic, i)), ToInterpolation(g))
  }

  // ---------------------------------------------------------------------
  // The inverse: laying keyframes out as a channel's flat arrays
  // ---------------------------------------------------------------------

  /** Blocks laid end to end. */
  function Flatten(blocks: seq<seq<real>>): seq<real>
  {
    if |blocks| == 0 then [] else Flatten(blocks[..|blocks| - 1]) + blocks[|blocks| - 1]
  }

  predicate Uniform(blocks: seq<seq<real>>, w: nat)
  {
    forall i :: 0 <= i < |blocks| ==> |blocks[i]| == w
  }

  /** Blocks of a common width w lie one after another: the flat array has
      |blocks| * w floats and block i starts at i * w. */
  lemma {:induction false} FlattenLayout(blocks: seq<seq<real>>, w: nat)
    requires Uniform(blocks, w)
    ensures |Flatten(blocks)| == |blocks| * w
    ensures forall i, k :: 0 <= i < |blocks| && 0 <= k < w ==>
              i * w + k < |Flatten(blocks)| && Flatten(blocks)[i * w + k] == blocks[i][k]
  {
    var n := |blocks|;
    if n > 0 {
      var front := blocks[..n - 1];
      FlattenLayout(front, w);
      var f := Flatten(blocks);
      assert f == Flatten(front) + blocks[n - 1];
      NextBlock(n - 1, w);
      forall i, k | 0 <= i < n && 0 <= k < w
        ensures i * w + k < |f| && f[i * w + k] == blocks[i][k]
      {
        if i < n - 1 {
          BlockBefore(i, n - 1, k, w);
          assert f[i * w + k] == Flatten(front)[i * w + k];
        } else {
          assert i * w + k == (n - 1) * w + k;
        }
      }
    }
  }

  /** The block after block m starts w floats later. */
  lemma NextBlock(m: nat, w: nat)
    ensures m * w + w == (m + 1) * w
  {
  }

  /** A float of block i lies before block m when i < m. */
  lemma BlockBefore(i: nat, m: nat, k: nat, w: nat)
    requires i < m && k < w
    ensures i * w + k < m * w
  {
    NextBlock(i, w);
    MulMonotone(i + 1, m, w);
  }

  function Vec3Floats(v: V.Vec3): seq<real>
  {
    [v.x, v.y, v.z]
  }

  function QuatFloats(q: Q.Quat): seq<real>
  {
    [q.x, q.y, q.z, q.w]
  }

  /** The floats of one vector keyframe as a channel stores them. */
  function Vec3Block(f: Frame<V.Vec3>, cubic: bool): (b: seq<real>)
    ensures |b| == Width(3, cubic)
  {
    if cubic then Vec3Floats(f.inTangent) + Vec3Floats(f.value) + Vec3Floats(f.outTangent)
    else Vec3Floats(f.value)
  }

  function QuatBlock(f: Frame<Q.Quat>, cubic: bool): (b: seq<real>)
    ensures |b| == Width(4, cubic)
  {
    if cubic then QuatFloats(f.inTangent) + QuatFloats(f.value) + QuatFloats(f.outTangent)
    else QuatFloats(f.value)
  }

  function Times<X>(frames: seq<Frame<X>>): (r: seq<real>)
    ensures |r| == |frames| && forall i :: 0 <= i < |frames| ==> r[i] == frames[i].time
  {
    seq(|frames|, i requires 0 <= i < |frames| => frames[i].time)
  }

  function Vec3Blocks(frames: seq<Frame<V.Vec3>>, cubic: bool): (b: seq<seq<real>>)
    ensures |b| == |frames| && Uniform(b, Width(3, cubic))
    ensures forall i :: 0 <= i < |frames| ==> b[i] == Vec3Block(frames[i], cubic)
  {
    seq(|frames|, i requires 0 <= i < |frames| => Vec3Block(frames[i], cubic))
  }

  function QuatBlocks(frames: seq<Frame<Q.Quat>>, cubic: bool): (b: seq<seq<real>>)
    ensures |b| == |frames| && Uniform(b, Width(4, cubic))
    ensures forall i :: 0 <= i < |frames| ==> b[i] == QuatBlock(frames[i], cubic)
  {
    seq(|frames|, i requires 0 <= i < |frames| => QuatBlock(frames[i], cubic))
  }

  /** A vector track written out as a channel's value array. */
  function PackVec3(frames: seq<Frame<V.Vec3>>, cubic: bool): seq<real>
  {
    Flatten(Vec3Blocks(frames, cubic))
  }

  function PackQuat(frames: seq<Frame<Q.Quat>>, cubic: bool): seq<real>
  {
    Flatten(QuatBlocks(frames, cubic))
  }

  /** A packed channel has exactly one block's width per time. */
  lemma PackedStride(blocks: seq<seq<real>>, w: nat, times: seq<real>)
    requires Uniform(blocks, w) && |times| == |blocks| > 0
    ensures |Flatten(blocks)| == |blocks| * w
    ensures Stride(times, Flatten(blocks)) == w
  {
    FlattenLayout(blocks, w);
    ExactStride(|blocks|, w);
  }

  /** n * w floats over n times give stride w. */
  lemma ExactStride(n: nat, w: nat)
    requires n > 0
    ensures (n * w) / n == w
  {
    var q := (n * w) / n;
    var d := w - q;
    assert n * w == n * q + (n * w) % n;
    assert n * d == (n * w) % n;
    ProductSign(n, d);
  }

  /** A positive factor keeps a product at least as far from zero. */
  lemma ProductSign(n: int, d: int)
    requires n > 0
    ensures d >= 1 ==> n * d >= n
    ensures d <= -1 ==> n * d <= -n
  {
  }

  /** Block i of a flattened array, as a slice. */
  lemma BlockAt(blocks: seq<seq<real>>, w: nat, i: nat)
    requires Uniform(blocks, w) && i < |blocks|
    ensures i * w + w <= |Flatten(blocks)|
    ensures Flatten(blocks)[i * w .. i * w + w] == blocks[i]
  {
    FlattenLayout(blocks, w);
    var f := Flatten(blocks);
    var base := i * w;
    NextBlock(i, w);
    MulMonotone(i + 1, |blocks|, w);
    forall k | 0 <= k < w
      ensures f[base + k] == blocks[i][k]
    {
    }
    SliceMatches(f, base, blocks[i]);
  }

  /** A slice that agrees with b at every offset is b. */
  lemma SliceMatches(f: seq<real>, base: nat, b: seq<real>)
    requires base + |b| <= |f|
    requires forall k :: 0 <= k < |b| ==> f[base + k] == b[k]
    ensures f[base .. base + |b|] == b
  {
  }

  /** Reading a keyframe back from its own block gives the keyframe, when a
      non-cubic keyframe has zero tangents. */
  lemma Vec3ReadBack(values: seq<real>, base: nat, f: Frame<V.Vec3>, cubic: bool)
    requires base + Width(3, cubic) <= |values|
    requires values[base .. base + Width(3, cubic)] == Vec3Block(f, cubic)
    requires !cubic ==> f.inTangent == V.Zero && f.outTangent == V.Zero
    ensures Vec3FrameFrom(values, base, cubic, f.time) == f
  {
    var b := values[base .. base + Width(3, cubic)];
    assert values[base] == b[0] && values[base + 1] == b[1] && values[base + 2] == b[2];
    if cubic {
      assert values[base + 3] == b[3] && values[base + 4] == b[4] && values[base + 5] == b[5];
      assert values[base + 6] == b[6] && values[base + 7] == b[7] && values[base + 8] == b[8];
    }
  }

  lemma QuatReadBack(values: seq<real>, base: nat, f: Frame<Q.Quat>, cubic: bool)
    requires base + Width(4, cubic) <= |values|
    requires values[base .. base + Width(4, cubic)] == QuatBlock(f, cubic)
    requires !cubic ==> f.inTangent == Q.Quat(0.0, 0.0, 0.0, 0.0) && f.outTangent == Q.Quat(0.0, 0.0, 0.0, 0.0)
    ensures QuatFrameFrom(values, base, cubic, f.time) == f
  {
    var b := values[base .. base + Width(4, cubic)];
    assert values[base] == b[0] && values[base + 1] == b[1];
    assert values[base + 2] == b[2] && values[base + 3] == b[3];
    if cubic {
      assert values[base + 4] == b[4] && values[base + 5] == b[5];
      assert values[base + 6] == b[6] && values[base + 7] == b[7];
      assert values[base + 8] == b[8] && values[base + 9] == b[9];
      assert values[base + 10] == b[10] && values[base + 11] == b[11];
    }
  }

  /** Unpacking undoes packing: a non-empty vector track whose tangents are
      zero unless it is cubic comes back unchanged from its own channel
      arrays. */
  lemma UnpackPackVec3(g: GltfInterpolation, frames: seq<Frame<V.Vec3>>)
    requires |frames| > 0
    requires g != GltfCubicSpline ==> forall i :: 0 <= i < |frames| ==>
               frames[i].inTangent == V.Zero && frames[i].outTangent == V.Zero
    ensures Fits(Times(frames), PackVec3(frames, g == GltfCubicSpline), 3, g == GltfCubicSpline)
    ensures UnpackVec3(g, Times(frames), PackVec3(frames, g == GltfCubicSpline))
            == Track(frames, ToInterpolation(g))
  {
    var cubic := g == GltfCubicSpline;
    PackedStride(Vec3Blocks(frames, cubic), Width(3, cubic), Times(frames));
    var r := UnpackVec3(g, Times(frames), PackVec3(frames, cubic));
    forall i | 0 <= i < |frames|
      ensures r.frames[i] == frames[i]
    {
      Vec3FrameBack(frames, cubic, i);
    }
  }

  /** Keyframe i reads back from its own block. */
  lemma Vec3FrameBack(frames: seq<Frame<V.Vec3>>, cubic: bool, i: nat)
    requires i < |frames|
    requires !cubic ==> frames[i].inTangent == V.Zero && frames[i].outTangent == V.Zero
    requires Stride(Times(frames), PackVec3(frames, cubic)) == Width(3, cubic)
    ensures Fits(Times(frames), PackVec3(frames, cubic), 3, cubic)
    ensures Vec3FrameAt(Times(frames), PackVec3(frames, cubic), cubic, i) == frames[i]
  {
    var w := Width(3, cubic);
    BlockAt(Vec3Blocks(frames, cubic), w, i);
    Vec3ReadBack(PackVec3(frames, cubic), i * w, frames[i], cubic);
  }

  /** The same round trip for quaternion tracks. */
  lemma UnpackPackQuat(g: GltfInterpolation, frames: seq<Frame<Q.Quat>>)
    requires |frames| > 0
    requires g != GltfCubicSpline ==> forall i :: 0 <= i < |frames| ==>
               frames[i].inTangent == Q.Quat(0.0, 0.0, 0.0, 0.0) && frames[i].outTangent == Q.Quat(0.0, 0.0, 0.0, 0.0)
    ensures Fits(Times(frames), PackQuat(frames, g == GltfCubicSpline), 4, g == GltfCubicSpline)
    ensures UnpackQuat(g, Times(frames), PackQuat(frames, g == GltfCubicSpline))
            == Track(frames, ToInterpolation(g))
  {
    var cubic := g == GltfCubicSpline;
    PackedStride(QuatBlocks(frames, cubic), Width(4, cubic), Times(frames));
    var r := UnpackQuat(g, Times(frames), PackQuat(frames, cubic));
    forall i | 0 <= i < |frames|
      ensures r.frames[i] == frames[i]
    {
      QuatFrameBack(frames, cubic, i);
    }
  }

  lemma QuatFrameBack(frames: seq<Frame<Q.Quat>>, cubic: bool, i: nat)
    requires i < |frames|
    requires !cubic ==> frames[i].inTangent == Q.Quat(0.0, 0.0, 0.0, 0.0) && frames[i].outTangent == Q.Quat(0.0, 0.0, 0.0, 0.0)
    requires Stride(Times(frames), PackQuat(frames, cubic)) == Width(4, cubic)
    ensures Fits(Times(frames), PackQuat(frames, cubic), 4, cubic)
    ensures QuatFrameAt(Times(frames), PackQuat(frames, cubic), cubic, i) == frames[i]
  {
    var w := Width(4, cubic);
    BlockAt(QuatBlocks(frames, cubic), w, i);
    QuatReadBack(PackQuat(frames, cubic), i * w, frames[i], cubic);
  }
}
