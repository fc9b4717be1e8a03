/** The time logic shared by the scalar, vector and quaternion tracks: looping
    time wrap-around, the search for the keyframe segment that contains a
    time, and the clamping of a time to the track's range.

    The three track kinds repeat this logic with small differences in the
    comparisons and constants; `Kind` selects between them so that each
    difference is stated once. Only the keyframe times matter here, so every
    function is generic in the keyframe value type. */
module TrackTime {
  import opened Options

  /** How values between keyframes are produced. */
  datatype Interpolation = Constant | Linear | Cubic

  /** A keyframe: value, incoming and outgoing tangents, and time. */
  datatype Frame<T> = Frame(value: T, inTangent: T, outTangent: T, time: real)

  datatype Track<T> = Track(frames: seq<Frame<T>>, interpolation: Interpolation)

  /** Which of the three track structures is meant. */
  datatype Kind = ScalarKind | Vec3Kind | QuatKind

  /** A newly constructed track: no keyframes, linear interpolation. */
  function NewTrack<T>(): (r: Track<T>)
    ensures |r.frames| == 0 && r.interpolation == Linear
  {
    Track([], Linear)
  }

  /** `GetStartTime`: the first keyframe's time. `GetStartTime` reads the first
      element without a check, so an empty track is excluded. */
  function StartTime<T>(frames: seq<Frame<T>>): (r: real)
    requires |frames| > 0
    ensures forall i :: 0 <= i < |frames| && Sorted(frames) ==> r <= frames[i].time
  {
    SortedBounds(frames);
    frames[0].time
  }

  /** `GetEndTime`: the last keyframe's time. */
  function EndTime<T>(frames: seq<Frame<T>>): (r: real)
    requires |frames| > 0
    ensures forall i :: 0 <= i < |frames| && Sorted(frames) ==> frames[i].time <= r
  {
    SortedBounds(frames);
    frames[|frames| - 1].time
  }

  /** Keyframe times strictly increase, as the loaders produce them. */
  predicate Sorted<T>(frames: seq<Frame<T>>)
  {
    forall i, j :: 0 <= i < j < |frames| ==> frames[i].time < frames[j].time
  }

  lemma SortedBounds<T>(frames: seq<Frame<T>>)
    requires |frames| > 0
    ensures Sorted(frames) ==> forall i :: 0 <= i < |frames| ==> frames[0].time <= frames[i].time <= frames[|frames| - 1].time
  {
  }

  // ---------------------------------------------------------------------
  // fmodf and the looping wrap-around
  // ---------------------------------------------------------------------

  /** Rounding toward zero, the integer quotient `fmodf` uses. */
  function Trunc(r: real): (n: int)
    ensures r >= 0.0 ==> n == r.Floor
    ensures r < 0.0 ==> n == -((-r).Floor)
    ensures Abs((n as real)) <= Abs(r) < Abs((n as real)) + 1.0
  {
    if r >= 0.0 then r.Floor else -((-r).Floor)
  }

  function Abs(r: real): real {
    if r < 0.0 then -r else r
  }

  /** `fmodf(x, y)`. A zero divisor yields NaN, modelled as `None`; otherwise
      the result is x minus the truncated quotient times y. */
  function FModF(x: real, y: real): (r: Option<real>)
    ensures y == 0.0 <==> r.None?
    ensures r.Some? ==> Abs(r.value) < Abs(y)
    ensures r.Some? && x >= 0.0 ==> r.value >= 0.0
    ensures r.Some? && x <= 0.0 ==> r.value <= 0.0
  {
    if y == 0.0 then None
    else
      FModBounds(x, y);
      Some(x - y * (Trunc(x / y) as real))
  }

  lemma FModBounds(x: real, y: real)
    requires y != 0.0
    ensures var m := x - y * (Trunc(x / y) as real);
            Abs(m) < Abs(y) && (x >= 0.0 ==> m >= 0.0) && (x <= 0.0 ==> m <= 0.0)
  {
    var q := x / y;
    var n := Trunc(q);
    var f := q - (n as real);
    assert x == y * q;
    assert x - y * (n as real) == y * f;
    if q >= 0.0 {
      assert 0.0 <= f < 1.0;
    } else {
      assert -1.0 < f <= 0.0;
    }
    ScaledFraction(f, y);
  }

  /** A fraction of y strictly inside (-1, 1) has magnitude below |y|. */
  lemma ScaledFraction(f: real, y: real)
    requires -1.0 < f < 1.0 && y != 0.0
    ensures Abs(y * f) < Abs(y)
    ensures (f >= 0.0 && y > 0.0) || (f <= 0.0 && y < 0.0) ==> y * f >= 0.0
    ensures (f <= 0.0 && y > 0.0) || (f >= 0.0 && y < 0.0) ==> y * f <= 0.0
  {
  }

  lemma NonNegativeProduct(y: real, q: real)
    requires y > 0.0 && q >= 0.0
    ensures y * q >= 0.0
  {
  }

  /** Adding one span to the dividend adds one to the quotient. */
  lemma QuotientShift(x: real, y: real)
    requires y > 0.0
    ensures (x + y) / y == x / y + 1.0
  {
    var q := x / y;
    var q2 := (x + y) / y;
    assert q * y == x;
    assert q2 * y == x + y;
    assert (q2 - q - 1.0) * y == q2 * y - q * y - y;
    ZeroProduct(q2 - q - 1.0, y);
  }

  lemma ZeroProduct(a: real, y: real)
    requires y != 0.0 && a * y == 0.0
    ensures a == 0.0
  {
  }

  lemma UnitQuotient(x: real, y: real)
    requires 0.0 <= x < y
    ensures 0.0 <= x / y < 1.0
  {
  }

  /** The floored remainder, the mathematical reference for wrapping. */
  function FloorMod(x: real, y: real): real
    requires y > 0.0
  {
    x - y * ((x / y).Floor as real)
  }

  /** The wrap-around every looping lookup performs: the offset from `start`
      is reduced with `fmodf` by the span, a negative remainder is moved up
      by one span, and `start` is added back. `None` is the NaN a zero span
      produces. */
  function WrapTime(time: real, start: real, end: real): (r: Option<real>)
    ensures r.None? <==> start == end
    ensures start < end ==> r.Some? && start <= r.value < end
  {
    match FModF(time - start, end - start)
    case None => None
    case Some(m) =>
      var w := if m < 0.0 then m + (end - start) else m;
      Some(w + start)
  }

  /** For a positive span the wrap-around is the floored remainder: the
      truncated `fmodf` and the sign correction together compute it. */
  lemma WrapIsFloorMod(time: real, start: real, end: real)
    requires start < end
    ensures WrapTime(time, start, end) == Some(start + FloorMod(time - start, end - start))
  {
    FModFloorMod(time - start, end - start);
  }

  /** The sign-corrected `fmodf` remainder is the floored remainder. */
  lemma FModFloorMod(x: real, y: real)
    requires y > 0.0
    ensures var m := FModF(x, y).value;
            (if m < 0.0 then m + y else m) == FloorMod(x, y)
  {
    var q := x / y;
    var m := FModF(x, y).value;
    assert x == y * q;
    if q >= 0.0 {
      NonNegativeProduct(y, q);
      assert Trunc(q) == q.Floor;
    } else if (q.Floor as real) == q {
      assert Trunc(q) == q.Floor;
      assert m == x - y * q == 0.0;
    } else {
      var fl := q.Floor as real;
      assert Trunc(q) == q.Floor + 1;
      NegativeRemainder(x, y, q, fl, m);
    }
  }

  /** For a negative quotient that is not an integer, truncation lands one
      above the floor, so the truncated remainder is the floored one minus a
      whole span, and it is negative. */
  lemma NegativeRemainder(x: real, y: real, q: real, fl: real, m: real)
    requires y > 0.0 && x == y * q && fl < q < fl + 1.0
    requires m == x - y * (fl + 1.0)
    ensures m < 0.0
    ensures m + y == x - y * fl
  {
    MulAddOne(y, fl);
    BelowScaled(x, y, q, fl + 1.0);
  }

  lemma BelowScaled(x: real, y: real, q: real, b: real)
    requires y > 0.0 && x == y * q && q < b
    ensures x < y * b
  {
    StrictScale(y, q, b);
  }

  lemma MulAddOne(y: real, a: real)
    ensures y * (a + 1.0) == y * a + y
  {
  }

  lemma StrictScale(y: real, a: real, b: real)
    requires y > 0.0 && a < b
    ensures y * a < y * b
  {
  }

  /** Shifting the dividend by one span does not change the remainder. */
  lemma FloorModShift(x: real, y: real)
    requires y > 0.0
    ensures FloorMod(x + y, y) == FloorMod(x, y)
  {
    var q := x / y;
    QuotientShift(x, y);
    assert (q + 1.0).Floor == q.Floor + 1;
    Distribute(y, q.Floor as real, 1.0);
  }

  lemma Distribute(y: real, a: real, b: real)
    ensures y * (a + b) == y * a + b * y
  {
  }

  /** One span later the looping time wraps to the same place. */
  lemma WrapOneSpan(time: real, start: real, end: real)
    requires start < end
    ensures WrapTime(time + (end - start), start, end) == WrapTime(time, start, end)
  {
    WrapIsFloorMod(time, start, end);
    WrapIsFloorMod(time + (end - start), start, end);
    FloorModShift(time - start, end - start);
  }

  /** `time` moved by k whole spans, forwards for positive k and backwards
      for negative k. */
  function ShiftBy(time: real, span: real, k: int): (r: real)
    ensures r == time + (k as real) * span
    decreases if k < 0 then -k else k
  {
    if k == 0 then time
    else if k > 0 then ShiftBy(time, span, k - 1) + span
    else ShiftBy(time, span, k + 1) - span
  }

  /** Shifting a time by any whole number of spans, forwards or backwards,
      does not change where it wraps to. */
  lemma {:induction false} WrapPeriodic(time: real, start: real, end: real, k: int)
    requires start < end
    ensures WrapTime(ShiftBy(time, end - start, k), start, end) == WrapTime(time, start, end)
    decreases if k < 0 then -k else k
  {
    var span := end - start;
    if k > 0 {
      WrapPeriodic(time, start, end, k - 1);
      WrapOneSpan(ShiftBy(time, span, k - 1), start, end);
    } else if k < 0 {
      WrapPeriodic(time, start, end, k + 1);
      WrapOneSpan(ShiftBy(time, span, k), start, end);
    }
  }

  /** A time already inside [start, end) is its own wrap. */
  lemma WrapInside(time: real, start: real, end: real)
    requires start <= time < end
    ensures WrapTime(time, start, end) == Some(time)
  {
    WrapIsFloorMod(time, start, end);
    var x := time - start;
    var y := end - start;
    UnitQuotient(x, y);
    assert (x / y).Floor == 0;
    assert FloorMod(x, y) == x;
  }

  // ---------------------------------------------------------------------
  // Keyframe search
  // ---------------------------------------------------------------------

  /** The backward scan ending every `FrameIndex`: the highest index at or
      below `i` whose time is at most `time`, or -1 if there is none. */
  function ScanBack<T>(frames: seq<Frame<T>>, time: real, i: int): (r: int)
    requires -1 <= i < |frames|
    ensures -1 <= r <= i
    ensures r >= 0 ==> frames[r].time <= time
    ensures forall j :: r < j <= i ==> time < frames[j].time
    decreases i + 1
  {
    if i < 0 then -1
    else if time >= frames[i].time then i
    else ScanBack(frames, time, i - 1)
  }

  /** The early-out tests of the non-looping search. The scalar track uses
      `<=` and `>=`, the vector and quaternion tracks `<` and `>`. */
  predicate BeforeFirst(kind: Kind, time: real, first: real)
  {
    if kind == ScalarKind then time <= first else time < first
  }

  predicate AfterLast(kind: Kind, time: real, penultimate: real)
  {
    if kind == ScalarKind then time >= penultimate else time > penultimate
  }

  /** `FrameIndex`: the keyframe that starts the segment containing `time`.
      Tracks with fewer than two keyframes have no segment (-1). When
      looping, the time is wrapped first; a zero-length looping track wraps
      to NaN, which no comparison accepts, so the scan ends at -1. Otherwise
      times before the first keyframe select segment 0 and times after the
      second-to-last keyframe select the last segment. */
  function FrameIndex<T>(frames: seq<Frame<T>>, time: real, looping: bool, kind: Kind): (r: int)
    ensures -1 <= r < |frames|
    ensures |frames| <= 1 ==> r == -1
    ensures r >= 0 && looping ==> (var w := WrapTime(time, frames[0].time, frames[|frames| - 1].time);
                                   w.Some? && frames[r].time <= w.value)
  {
    var n := |frames|;
    if n <= 1 then -1
    else if looping then
      match WrapTime(time, frames[0].time, frames[n - 1].time)
      case None => -1
      case Some(w) => ScanBack(frames, w, n - 1)
    else if BeforeFirst(kind, time, frames[0].time) then 0
    else if AfterLast(kind, time, frames[n - 2].time) then n - 2
    else ScanBack(frames, time, n - 1)
  }

  /** On sorted keyframes the non-looping search is exact: it returns a
      segment index, and that segment contains `time` except where `time`
      lies before the first or after the second-to-last keyframe. */
  lemma FrameIndexLocates<T>(frames: seq<Frame<T>>, time: real, kind: Kind)
    requires |frames| >= 2 && Sorted(frames)
    ensures var r := FrameIndex(frames, time, false, kind);
            && 0 <= r <= |frames| - 2
            && (time <= frames[0].time ==> r == 0)
            && (time >= frames[|frames| - 2].time ==> r == |frames| - 2)
            && (frames[0].time <= time < frames[|frames| - 2].time ==>
                  frames[r].time <= time < frames[r + 1].time)
  {
    var n := |frames|;
    var r := FrameIndex(frames, time, false, kind);
    if !BeforeFirst(kind, time, frames[0].time) && !AfterLast(kind, time, frames[n - 2].time) {
      var s := ScanBack(frames, time, n - 1);
      assert frames[0].time <= time;
      assert s >= 0;
    }
  }

  /** When looping over sorted keyframes, the search returns the segment that
      contains the wrapped time. */
  lemma FrameIndexLoopingLocates<T>(frames: seq<Frame<T>>, time: real, kind: Kind)
    requires |frames| >= 2 && Sorted(frames)
    ensures var w := WrapTime(time, frames[0].time, frames[|frames| - 1].time).value;
            var r := FrameIndex(frames, time, true, kind);
            0 <= r <= |frames| - 2 && frames[r].time <= w < frames[r + 1].time
  {
    var n := |frames|;
    var w := WrapTime(time, frames[0].time, frames[n - 1].time).value;
    var s := ScanBack(frames, w, n - 1);
    assert frames[0].time <= w;
    assert s >= 0;
  }

  /** The looping search repeats with the track's length. */
  lemma FrameIndexPeriodic<T>(frames: seq<Frame<T>>, time: real, kind: Kind, k: int)
    requires |frames| >= 2 && frames[0].time < frames[|frames| - 1].time
    ensures var span := frames[|frames| - 1].time - frames[0].time;
            FrameIndex(frames, ShiftBy(time, span, k), true, kind) == FrameIndex(frames, time, true, kind)
  {
    WrapPeriodic(time, frames[0].time, frames[|frames| - 1].time, k);
  }

  // ---------------------------------------------------------------------
  // Time adjustment
  // ---------------------------------------------------------------------

  /** What `AdjustTimeToFitTrack` returns for a track with fewer than two
      keyframes: 0 for the scalar track, -1 for the other two. */
  function ShortTrackTime(kind: Kind): real {
    if kind == ScalarKind then 0.0 else -1.0
  }

  /** `AdjustTimeToFitTrack`: the time actually sampled. Short tracks and
      tracks whose last keyframe is not after the first give a constant;
      otherwise a looping time is wrapped into [start, end) and a
      non-looping time is clamped to [start, end]. */
  function AdjustTime<T>(frames: seq<Frame<T>>, time: real, looping: bool, kind: Kind): (r: real)
    ensures |frames| <= 1 ==> r == ShortTrackTime(kind)
    ensures |frames| > 1 && frames[|frames| - 1].time <= frames[0].time ==> r == 0.0
    ensures |frames| > 1 && frames[0].time < frames[|frames| - 1].time ==>
              frames[0].time <= r <= frames[|frames| - 1].time
  {
    var n := |frames|;
    if n <= 1 then ShortTrackTime(kind)
    else
      var start := frames[0].time;
      var end := frames[n - 1].time;
      if end - start <= 0.0 then 0.0
      else if looping then WrapTime(time, start, end).value
      else
        var t := if time < start then start else time;
        if t >= end then end else t
  }

  /** The reference for the non-looping adjustment: the time clamped to the
      track's range. */
  function Clamp(time: real, lo: real, hi: real): real
    requires lo <= hi
  {
    if time < lo then lo else if time > hi then hi else time
  }

  /** The adjustment agrees with its references: clamping without looping
      and the floored remainder with looping. */
  lemma AdjustTimeMatchesReference<T>(frames: seq<Frame<T>>, time: real, kind: Kind)
    requires |frames| >= 2 && frames[0].time < frames[|frames| - 1].time
    ensures var start := frames[0].time;
            var end := frames[|frames| - 1].time;
            && AdjustTime(frames, time, false, kind) == Clamp(time, start, end)
            && AdjustTime(frames, time, true, kind) == start + FloorMod(time - start, end - start)
  {
    WrapIsFloorMod(time, frames[0].time, frames[|frames| - 1].time);
  }

  /** The looping adjustment also repeats with the track's length. */
  lemma AdjustTimePeriodic<T>(frames: seq<Frame<T>>, time: real, kind: Kind, k: int)
    requires |frames| >= 2 && frames[0].time < frames[|frames| - 1].time
    ensures var span := frames[|frames| - 1].time - frames[0].time;
            AdjustTime(frames, ShiftBy(time, span, k), true, kind) == AdjustTime(frames, time, true, kind)
  {
    WrapPeriodic(time, frames[0].time, frames[|frames| - 1].time, k);
  }

  // ---------------------------------------------------------------------
  // Segments
  // ---------------------------------------------------------------------

  /** The segment a linear or cubic sample interpolates over: its first
      keyframe, the normalised position `t` inside it, and its duration. */
  datatype Segment = Segment(frame: nat, t: real, delta: real)

  /** The common prologue of `SampleLinear` and `SampleCubic`: find the
      segment, reject a missing one or one that is not strictly increasing in
      time, and place the adjusted time inside it. */
  function LocateSegment<T>(frames: seq<Frame<T>>, time: real, looping: bool, kind: Kind): (r: Option<Segment>)
    ensures r.Some? ==> r.value.frame + 1 < |frames|
    ensures r.Some? ==> r.value.frame == FrameIndex(frames, time, looping, kind)
    ensures r.Some? ==> r.value.delta == frames[r.value.frame + 1].time - frames[r.value.frame].time > 0.0
    ensures r.Some? ==> r.value.t == Fraction(AdjustTime(frames, time, looping, kind) - frames[r.value.frame].time,
                                              r.value.delta)
    ensures r.None? <==> (var i := FrameIndex(frames, time, looping, kind);
                          i < 0 || i >= |frames| - 1 || frames[i + 1].time - frames[i].time <= 0.0)
  {
    var frame := FrameIndex(frames, time, looping, kind);
    if frame < 0 || frame >= |frames| - 1 then None
    else
      var trackTime := AdjustTime(frames, time, looping, kind);
      var thisTime := frames[frame].time;
      var delta := frames[frame + 1].time - thisTime;
      if delta <= 0.0 then None
      else
        Some(Segment(frame, Fraction(trackTime - thisTime, delta), delta))
  }

  /** How far `a` is along a positive length `d`, as a fraction of it. */
  function Fraction(a: real, d: real): (t: real)
    requires d > 0.0
    ensures t * d == a
  {
    a / d
  }

  /** Looping segment lookup repeats with the track's length. */
  lemma LocateSegmentPeriodic<T>(frames: seq<Frame<T>>, time: real, kind: Kind, k: int)
    requires |frames| >= 2 && frames[0].time < frames[|frames| - 1].time
    ensures var span := frames[|frames| - 1].time - frames[0].time;
            LocateSegment(frames, ShiftBy(time, span, k), true, kind) == LocateSegment(frames, time, true, kind)
  {
    FrameIndexPeriodic(frames, time, kind, k);
    AdjustTimePeriodic(frames, time, kind, k);
  }

  /** The index bound `SampleConstant` accepts: the scalar track accepts any
      keyframe index, the other two exclude the last keyframe. */
  function ConstantBound(kind: Kind, n: nat): int {
    if kind == ScalarKind then n else n - 1
  }

  /** `SampleConstant`: the value of the keyframe `FrameIndex` selects, or the
      type's default value when that index is rejected. */
  function SampleConstant<T>(frames: seq<Frame<T>>, time: real, looping: bool, kind: Kind, default: T): (r: T)
    ensures var i := FrameIndex(frames, time, looping, kind);
            0 <= i < ConstantBound(kind, |frames|) ==> r == frames[i].value
    ensures var i := FrameIndex(frames, time, looping, kind);
            !(0 <= i < ConstantBound(kind, |frames|)) ==> r == default
  {
    var frame := FrameIndex(frames, time, looping, kind);
    if frame < 0 || frame >= ConstantBound(kind, |frames|) then default
    else frames[frame].value
  }

  /** On a sorted track of at least two keyframes every kind holds the value
      of the keyframe that starts the current segment, so the scalar track's
      wider bound never makes a difference there. */
  lemma ConstantHoldsSegmentStart<T>(frames: seq<Frame<T>>, time: real, looping: bool, kind: Kind, default: T)
    requires |frames| >= 2 && Sorted(frames)
    ensures var i := FrameIndex(frames, time, looping, kind);
            0 <= i <= |frames| - 2 && SampleConstant(frames, time, looping, kind, default) == frames[i].value
  {
    if looping {
      FrameIndexLoopingLocates(frames, time, kind);
    } else {
      FrameIndexLocates(frames, time, kind);
    }
  }

  /** Constant sampling of a looping track repeats with the track's length. */
  lemma SampleConstantPeriodic<T>(frames: seq<Frame<T>>, time: real, kind: Kind, default: T, k: int)
    requires |frames| >= 2 && frames[0].time < frames[|frames| - 1].time
    ensures var span := frames[|frames| - 1].time - frames[0].time;
            SampleConstant(frames, ShiftBy(time, span, k), true, kind, default)
            == SampleConstant(frames, time, true, kind, default)
  {
    FrameIndexPeriodic(frames, time, kind, k);
  }

  /** Without looping, a time at a keyframe other than the last starts that
      keyframe's segment (t = 0). */
  lemma LocateSegmentAtKeyframe<T>(frames: seq<Frame<T>>, i: nat, kind: Kind)
    requires |frames| >= 2 && Sorted(frames) && i <= |frames| - 2
    ensures var r := LocateSegment(frames, frames[i].time, false, kind);
            r.Some? && r.value.frame == i && r.value.t == 0.0
  {
    var time := frames[i].time;
    FrameIndexLocates(frames, time, kind);
    var j := FrameIndex(frames, time, false, kind);
    if i < |frames| - 2 {
      assert frames[i].time < frames[|frames| - 2].time;
      if i == 0 {
        assert j == 0;
      } else {
        assert frames[0].time < time;
        SegmentUnique(frames, i, j);
      }
    }
    AdjustClamped(frames, time, kind);
    SegmentStartsAt(frames, time, kind, i);
  }

  /** Without looping, sorted keyframes adjust a time by clamping it. */
  lemma AdjustClamped<T>(frames: seq<Frame<T>>, time: real, kind: Kind)
    requires |frames| >= 2 && Sorted(frames)
    ensures frames[0].time < frames[|frames| - 1].time
    ensures AdjustTime(frames, time, false, kind) == Clamp(time, frames[0].time, frames[|frames| - 1].time)
  {
    AdjustTimeMatchesReference(frames, time, kind);
  }

  /** A lookup whose segment is i and whose adjusted time is keyframe i's
      time starts that segment. */
  lemma SegmentStartsAt<T>(frames: seq<Frame<T>>, time: real, kind: Kind, i: nat)
    requires |frames| >= 2 && Sorted(frames) && i <= |frames| - 2
    requires FrameIndex(frames, time, false, kind) == i
    requires AdjustTime(frames, time, false, kind) == frames[i].time
    ensures var r := LocateSegment(frames, time, false, kind);
            r.Some? && r.value.frame == i && r.value.t == 0.0
  {
    assert frames[i].time < frames[i + 1].time;
    var r := LocateSegment(frames, time, false, kind).value;
    ZeroProduct(r.t, r.delta);
  }

  /** On sorted keyframes a keyframe time lies in its own segment only. */
  lemma SegmentUnique<T>(frames: seq<Frame<T>>, i: nat, j: int)
    requires Sorted(frames) && i < |frames| && 0 <= j && j + 1 < |frames|
    requires frames[j].time <= frames[i].time < frames[j + 1].time
    ensures i == j
  {
  }

  /** On sorted keyframes, with or without looping, a time inside segment i
      is located in segment i, at the fraction u of the segment's duration d
      that has elapsed. */
  lemma LocateSegmentInside<T>(frames: seq<Frame<T>>, time: real, looping: bool, kind: Kind, i: nat, u: real, d: real)
    requires Sorted(frames) && i + 1 < |frames|
    requires frames[i].time <= time < frames[i + 1].time
    requires d == frames[i + 1].time - frames[i].time && u * d == time - frames[i].time
    ensures LocateSegment(frames, time, looping, kind) == Some(Segment(i, u, d))
  {
    FrameIndexInside(frames, time, looping, kind, i);
    FractionUnique(time - frames[i].time, d, u);
  }

  /** `Fraction` is the only solution of its equation. */
  lemma FractionUnique(a: real, d: real, u: real)
    requires d > 0.0 && u * d == a
    ensures Fraction(a, d) == u
  {
    ZeroProduct(Fraction(a, d) - u, d);
  }

  /** The search and the time adjustment behind `LocateSegmentInside`. */
  lemma FrameIndexInside<T>(frames: seq<Frame<T>>, time: real, looping: bool, kind: Kind, i: nat)
    requires Sorted(frames) && i + 1 < |frames|
    requires frames[i].time <= time < frames[i + 1].time
    ensures FrameIndex(frames, time, looping, kind) == i
    ensures AdjustTime(frames, time, looping, kind) == time
  {
    var n := |frames|;
    SortedBounds(frames);
    assert frames[0].time <= time < frames[n - 1].time;
    if looping {
      WrapInside(time, frames[0].time, frames[n - 1].time);
      var j := ScanBack(frames, time, n - 1);
      ScanBackFinds(frames, time, i, j);
    } else {
      FrameIndexLocates(frames, time, kind);
      var j := FrameIndex(frames, time, false, kind);
      if i < n - 2 {
        assert time < frames[n - 2].time;
        if time <= frames[0].time {
          assert i == 0;
        } else {
          ScanBackFinds(frames, time, i, j);
        }
      }
      AdjustClamped(frames, time, kind);
    }
  }

  /** Two segments of sorted keyframes that both contain a time are the same
      segment. */
  lemma ScanBackFinds<T>(frames: seq<Frame<T>>, time: real, i: nat, j: int)
    requires Sorted(frames) && i + 1 < |frames| && 0 <= j < |frames|
    requires frames[i].time <= time < frames[i + 1].time
    requires frames[j].time <= time
    requires j + 1 < |frames| ==> time < frames[j + 1].time
    ensures i == j
  {
  }

  /** Without looping, a time before the first keyframe starts the first
      segment (t = 0). */
  lemma LocateSegmentBeforeStart<T>(frames: seq<Frame<T>>, time: real, kind: Kind)
    requires |frames| >= 2 && Sorted(frames) && time <= frames[0].time
    ensures var r := LocateSegment(frames, time, false, kind);
            r.Some? && r.value.frame == 0 && r.value.t == 0.0
  {
    FrameIndexLocates(frames, time, kind);
    AdjustClamped(frames, time, kind);
    SegmentStartsAt(frames, time, kind, 0);
  }

  /** Without looping, a time at or after the last keyframe ends the last
      segment (t = 1). */
  lemma LocateSegmentAfterEnd<T>(frames: seq<Frame<T>>, time: real, kind: Kind)
    requires |frames| >= 2 && Sorted(frames) && time >= frames[|frames| - 1].time
    ensures var r := LocateSegment(frames, time, false, kind);
            r.Some? && r.value.frame == |frames| - 2 && r.value.t == 1.0
  {
    var n := |frames|;
    FrameIndexLocates(frames, time, kind);
    assert frames[n - 2].time < frames[n - 1].time;
    var r := LocateSegment(frames, time, false, kind).value;
    assert r.frame == n - 2;
    assert AdjustTime(frames, time, false, kind) == frames[n - 1].time;
    UnitProduct(r.t, r.delta, frames[n - 1].time - frames[n - 2].time);
  }

  lemma UnitProduct(a: real, y: real, b: real)
    requires y != 0.0 && a * y == b && b == y
    ensures a == 1.0
  {
    ZeroProduct(a - 1.0, y);
  }
}
