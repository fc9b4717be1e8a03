/** An animation clip: the per-joint tracks of one animation, its time range
    and whether it loops. Sampling a clip at a time writes the animated
    channels of every joint the clip has a track for into a pose. */
module Clips {
  import opened Options
  import opened TrackTime
  import TT = TransformTracks
  import T = Transforms
  import P = Poses

  datatype Clip = Clip(
    tracks: seq<TT.TransformTrack>,
    name: string,
    startTime: real,
    endTime: real,
    looping: bool)

  /** `Clip()`: no tracks, named "No Name", range [0, 0], not looping. */
  function NewClip(): (r: Clip)
    ensures |r.tracks| == 0 && r.name == "No Name" && !r.looping
    ensures r.startTime == 0.0 && r.endTime == 0.0 && Duration(r) == 0.0
  {
    Clip([], "No Name", 0.0, 0.0, false)
  }

  /** `GetDuration`: end minus start, whatever their order. */
  function Duration(c: Clip): real
  {
    c.endTime - c.startTime
  }

  /** `GetIdAtIndex`. */
  function IdAtIndex(c: Clip, index: nat): (r: nat)
    requires index < |c.tracks|
    ensures exists k :: 0 <= k < |c.tracks| && c.tracks[k].id == r
  {
    c.tracks[index].id
  }

  /** `SetIdAtIndex`: retags one track and changes nothing else. */
  function SetIdAtIndex(c: Clip, index: nat, id: nat): (r: Clip)
    requires index < |c.tracks|
    ensures |r.tracks| == |c.tracks| && IdAtIndex(r, index) == id
    ensures forall k :: 0 <= k < |c.tracks| && k != index ==> r.tracks[k] == c.tracks[k]
    ensures r.tracks[index] == c.tracks[index].(id := id)
    ensures r.name == c.name && r.startTime == c.startTime && r.endTime == c.endTime && r.looping == c.looping
  {
    c.(tracks := c.tracks[index := c.tracks[index].(id := id)])
  }

  // ---------------------------------------------------------------------
  // Looking up a joint's track
  // ---------------------------------------------------------------------

  /** The first track at or after `from` carrying joint id `id`, or -1. */
  function IndexOfId(tracks: seq<TT.TransformTrack>, id: nat, from: nat): (r: int)
    requires from <= |tracks|
    ensures r == -1 || from <= r < |tracks|
    ensures r == -1 <==> forall k :: from <= k < |tracks| ==> tracks[k].id != id
    ensures r >= 0 ==> tracks[r].id == id && forall k :: from <= k < r ==> tracks[k].id != id
    decreases |tracks| - from
  {
    if from == |tracks| then -1
    else if tracks[from].id == id then from
    else IndexOfId(tracks, id, from + 1)
  }

  /** No two tracks drive the same joint. */
  predicate DistinctIds(tracks: seq<TT.TransformTrack>)
  {
    forall i, j :: 0 <= i < j < |tracks| ==> tracks[i].id != tracks[j].id
  }

  /** `operator[](joint)`: the clip, possibly grown, and the index of the
      track for `joint`. An existing track is found by the first match and
      the clip is left alone; otherwise exactly one new track, empty and
      carrying the id, is appended. */
  function TrackFor(c: Clip, joint: nat): (r: (Clip, nat))
    ensures r.1 < |r.0.tracks| && r.0.tracks[r.1].id == joint
    ensures r.0.name == c.name && r.0.startTime == c.startTime && r.0.endTime == c.endTime && r.0.looping == c.looping
    ensures (exists k :: 0 <= k < |c.tracks| && c.tracks[k].id == joint) ==>
              r.0 == c && forall k :: 0 <= k < r.1 ==> c.tracks[k].id != joint
    ensures (forall k :: 0 <= k < |c.tracks| ==> c.tracks[k].id != joint) ==>
              r.0.tracks == c.tracks + [TT.NewTransformTrack().(id := joint)] && r.1 == |c.tracks|
  {
    var i := IndexOfId(c.tracks, joint, 0);
    if i >= 0 then (c, i as nat)
    else (c.(tracks := c.tracks + [TT.NewTransformTrack().(id := joint)]), |c.tracks|)
  }

  /** Looking a joint up twice finds the same track and grows the clip at
      most once. */
  lemma TrackForIdempotent(c: Clip, joint: nat)
    ensures TrackFor(TrackFor(c, joint).0, joint) == TrackFor(c, joint)
  {
    var (c1, i1) := TrackFor(c, joint);
    if forall k :: 0 <= k < |c.tracks| ==> c.tracks[k].id != joint {
      assert forall k :: 0 <= k < |c.tracks| ==> c1.tracks[k].id != joint;
    }
  }

  /** Lookup-or-append never gives two tracks the same joint. */
  lemma TrackForKeepsIdsDistinct(c: Clip, joint: nat)
    requires DistinctIds(c.tracks)
    ensures DistinctIds(TrackFor(c, joint).0.tracks)
  {
  }

  // ---------------------------------------------------------------------
  // Duration
  // ---------------------------------------------------------------------

  /** The clip's range is what `RecalculateDuration` leaves: the earliest
      start and the latest end over the valid tracks, both attained, and
      [0, 0] when no track is valid. */
  predicate SpansTracks(c: Clip)
  {
    && ((forall k :: 0 <= k < |c.tracks| ==> !TT.IsValid(c.tracks[k])) ==> c.startTime == 0.0 && c.endTime == 0.0)
    && (forall k :: 0 <= k < |c.tracks| && TT.IsValid(c.tracks[k]) ==>
          c.startTime <= TT.StartTime(c.tracks[k]) && TT.EndTime(c.tracks[k]) <= c.endTime)
    && ((exists k :: 0 <= k < |c.tracks| && TT.IsValid(c.tracks[k])) ==>
          (exists k :: 0 <= k < |c.tracks| && TT.IsValid(c.tracks[k]) && c.startTime == TT.StartTime(c.tracks[k]))
          && (exists k :: 0 <= k < |c.tracks| && TT.IsValid(c.tracks[k]) && c.endTime == TT.EndTime(c.tracks[k])))
  }

  /** `RecalculateDuration`: one scan over the tracks, where each valid
      track's start replaces the running start when earlier or when none
      has been set, and likewise for the end. */
  method RecalculateDuration(c: Clip) returns (r: Clip)
    ensures r.tracks == c.tracks && r.name == c.name && r.looping == c.looping
    ensures SpansTracks(r)
  {
    var start := 0.0;
    var end := 0.0;
    var startSet := false;
    var endSet := false;
    var i := 0;
    while i < |c.tracks|
      invariant 0 <= i <= |c.tracks|
      invariant startSet == endSet
      invariant startSet <==> exists k :: 0 <= k < i && TT.IsValid(c.tracks[k])
      invariant !startSet ==> start == 0.0 && end == 0.0
      invariant forall k :: 0 <= k < i && TT.IsValid(c.tracks[k]) ==>
                  start <= TT.StartTime(c.tracks[k]) && TT.EndTime(c.tracks[k]) <= end
      invariant startSet ==> exists k :: 0 <= k < i && TT.IsValid(c.tracks[k]) && start == TT.StartTime(c.tracks[k])
      invariant endSet ==> exists k :: 0 <= k < i && TT.IsValid(c.tracks[k]) && end == TT.EndTime(c.tracks[k])
    {
      if TT.IsValid(c.tracks[i]) {
        var trackStart := TT.StartTime(c.tracks[i]);
        var trackEnd := TT.EndTime(c.tracks[i]);
        if trackStart < start || !startSet {
          start := trackStart;
          startSet := true;
        }
        if trackEnd > end || !endSet {
          end := trackEnd;
          endSet := true;
        }
      }
      i := i + 1;
    }
    r := c.(startTime := start, endTime := end);
  }

  /** The tracks a loader produces have sorted keyframes in every animated
      channel. */
  predicate TracksSorted(c: Clip)
  {
    forall k :: 0 <= k < |c.tracks| ==>
      && (TT.Animated(c.tracks[k].position) ==> Sorted(c.tracks[k].position.frames))
      && (TT.Animated(c.tracks[k].rotation) ==> Sorted(c.tracks[k].rotation.frames))
      && (TT.Animated(c.tracks[k].scale) ==> Sorted(c.tracks[k].scale.frames))
  }

  /** After the recalculation a clip with a valid, sorted track has a
      positive duration, so sampling it is not skipped; without a valid
      track the duration is 0 and sampling does nothing. */
  lemma DurationPositiveIffValidTrack(c: Clip)
    requires SpansTracks(c) && TracksSorted(c)
    ensures Duration(c) > 0.0 <==> exists k :: 0 <= k < |c.tracks| && TT.IsValid(c.tracks[k])
    ensures Duration(c) >= 0.0
  {
    if exists k :: 0 <= k < |c.tracks| && TT.IsValid(c.tracks[k]) {
      var k :| 0 <= k < |c.tracks| && TT.IsValid(c.tracks[k]);
      TT.StartNotAfterEnd(c.tracks[k]);
    }
  }

  // ---------------------------------------------------------------------
  // Time adjustment
  // ---------------------------------------------------------------------

  /** `AdjustTimeToFitRange`. A looping clip wraps the time into
      [start, end), or gives 0 when the range is empty or reversed. A clip
      that does not loop raises the time to the start and then lowers it to
      the end, so a reversed range yields its end. */
  function AdjustTimeToFitRange(c: Clip, time: real): (r: real)
    ensures c.looping && Duration(c) <= 0.0 ==> r == 0.0
    ensures c.looping && Duration(c) > 0.0 ==> c.startTime <= r < c.endTime
    ensures !c.looping && c.startTime <= c.endTime ==> c.startTime <= r <= c.endTime
    ensures !c.looping && c.startTime <= time <= c.endTime ==> r == time
    ensures !c.looping && c.endTime < c.startTime ==> r == c.endTime
  {
    if c.looping then
      if Duration(c) <= 0.0 then 0.0
      else WrapTime(time, c.startTime, c.endTime).value
    else
      var raised := if time < c.startTime then c.startTime else time;
      if raised > c.endTime then c.endTime else raised
  }

  /** The adjustment agrees with its references: clamping without looping,
      and the floored remainder of the offset from the start with looping. */
  lemma AdjustTimeToFitRangeMatchesReference(c: Clip, time: real)
    requires c.startTime < c.endTime
    ensures !c.looping ==> AdjustTimeToFitRange(c, time) == Clamp(time, c.startTime, c.endTime)
    ensures c.looping ==> AdjustTimeToFitRange(c, time) == c.startTime + FloorMod(time - c.startTime, Duration(c))
  {
    WrapIsFloorMod(time, c.startTime, c.endTime);
  }

  /** A looping clip repeats with its duration. */
  lemma AdjustTimeToFitRangePeriodic(c: Clip, time: real, k: int)
    requires c.looping && c.startTime < c.endTime
    ensures AdjustTimeToFitRange(c, ShiftBy(time, Duration(c), k)) == AdjustTimeToFitRange(c, time)
  {
    WrapPeriodic(time, c.startTime, c.endTime, k);
  }

  /** Adjusting an adjusted time changes nothing. */
  lemma AdjustTimeToFitRangeIdempotent(c: Clip, time: real)
    ensures AdjustTimeToFitRange(c, AdjustTimeToFitRange(c, time)) == AdjustTimeToFitRange(c, time)
  {
    if c.looping && Duration(c) > 0.0 {
      var r := AdjustTimeToFitRange(c, time);
      WrapInside(r, c.startTime, c.endTime);
    }
  }

  // ---------------------------------------------------------------------
  // Sampling
  // ---------------------------------------------------------------------

  /** The joint ids of the clip's tracks. */
  function TrackedJoints(c: Clip): (s: set<nat>)
    ensures forall k :: 0 <= k < |c.tracks| ==> c.tracks[k].id in s
    ensures forall j :: j in s ==> exists k :: 0 <= k < |c.tracks| && c.tracks[k].id == j
  {
    set k | 0 <= k < |c.tracks| :: c.tracks[k].id
  }

  /** `Sample`: nothing happens and 0 is returned when the duration is
      exactly 0. Otherwise the time is fitted to the range and every track,
      in order, overwrites its joint's local transform with its sample taken
      over that joint's current local transform. Joints without a track keep
      their transforms; with one track per joint, each tracked joint ends up
      with its track's sample over its original transform. */
  method Sample(c: Clip, pose: P.Pose, time: real, rsqrt: real -> real) returns (out: P.Pose, r: real)
    requires Duration(c) != 0.0 ==> forall k :: 0 <= k < |c.tracks| ==> c.tracks[k].id < |pose.joints|
    ensures Duration(c) == 0.0 ==> out == pose && r == 0.0
    ensures Duration(c) != 0.0 ==> r == AdjustTimeToFitRange(c, time)
    ensures |out.joints| == |pose.joints| && out.parents == pose.parents
    ensures forall j :: 0 <= j < |pose.joints| && j !in TrackedJoints(c) ==> out.joints[j] == pose.joints[j]
    ensures Duration(c) != 0.0 && DistinctIds(c.tracks) ==>
              forall k :: 0 <= k < |c.tracks| ==>
                out.joints[c.tracks[k].id] == TT.Sample(c.tracks[k], pose.joints[c.tracks[k].id], r, c.looping, rsqrt)
  {
    out := pose;
    if Duration(c) == 0.0 {
      return out, 0.0;
    }
    r := AdjustTimeToFitRange(c, time);
    var i := 0;
    while i < |c.tracks|
      invariant 0 <= i <= |c.tracks|
      invariant |out.joints| == |pose.joints| && out.parents == pose.parents
      invariant forall j :: 0 <= j < |pose.joints| && (forall k :: 0 <= k < i ==> c.tracks[k].id != j) ==>
                  out.joints[j] == pose.joints[j]
      invariant DistinctIds(c.tracks) ==>
                  forall k :: 0 <= k < i ==>
                    out.joints[c.tracks[k].id] == TT.Sample(c.tracks[k], pose.joints[c.tracks[k].id], r, c.looping, rsqrt)
    {
      var joint := c.tracks[i].id;
      var local := P.GetLocal(out, joint);
      var animated := TT.Sample(c.tracks[i], local, r, c.looping, rsqrt);
      out := P.SetLocal(out, joint, animated);
      i := i + 1;
    }
  }
}
