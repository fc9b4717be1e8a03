# ThirdPersonGameDemo animation and input core, in Dafny

This project models the runtime core of a small third-person game demo. That core has five parts:

- **Keyframe animation.**
  - Scalar, vector and quaternion tracks with constant, linear and cubic Hermite interpolation.
  - Looping and clamped time fitting.
  - Transform tracks that animate a joint's position, rotation and scale.
  - Clips that sample many joint tracks into a pose.
  - Unpacking glTF animation channels into tracks.
- **Skeletal poses.**
  - Local and global joint transforms.
  - The matrix palette, pose equality and bind-pose localisation.
  - The skeleton's inverse-bind matrices.
- **Transform and quaternion algebra.**
  - Combine, inverse and mix.
  - Point and vector transforms.
  - Conversion of a transform to a matrix.
  - The polynomial quaternion operations.
- **A fixed-capacity slot map** of transform components. Keys are generation-stamped, a free list links the free slots, and removal swaps the last component into the hole.
- **The per-frame input latch** of the Win32 front end:
  - key, mouse-button and wheel messages;
  - XInput buttons and dead-zoned sticks;
  - the "down / just down / just up / up" queries for keys, mouse buttons and joystick buttons.

Modelling choices:

- **Numbers.** Floats are modelled as `real`, and integers as unbounded `int`/`nat`. Where the C++ code's integer width matters, it is written out: `SHORT` stick readings, the 32-bit generation limit, and the `lParam`/`wParam` bit tests on `bv32`.
- **Square roots.** Every function that divides by the square root of a squared length takes that reciprocal square root as a parameter `rsqrt`. These are quaternion normalisation and everything built on it.
- **The 4x4 inverse** is the parameter `inv4`.
- **Vector equality** with its tolerance is the parameter `vecNear`. `Vec3.h` and `Mat4.cpp` are not part of this model.
- **`fmodf` by zero.** The C library returns NaN. It is modelled as `None`.
- **Names.** WinMain.cpp spells the joystick queries `JoysickGetButton...`; the model names them `JoystickGetButton...`.
- **Time lookups on a zero-length looping track.** The NaN comparison fails, so the lookup returns -1 and the sample is the default value.

Modules follow the source files:

| Module | File | Source |
|---|---|---|
| `Options` | options.dfy | — |
| `Vectors` | vectors.dfy | — |
| `Quaternions` | quaternions.dfy | Quat.cpp |
| `Transforms` | transforms.dfy | Transform.cpp |
| `TrackTime` | track_time.dfy | the time logic of Track.cpp |
| `TrackSampling` | track_sample.dfy | the sampling logic of Track.cpp |
| `TransformTracks` | transform_track.dfy | TransformTrack.cpp |
| `Clips` | clip.dfy | Clip.cpp |
| `Channels` | channel.dfy | the glTF channel unpacking in Clip.cpp |
| `Poses` | pose.dfy | Pose.cpp |
| `Skeletons` | skeleton.dfy | Skeleton.cpp |
| `Slotmaps` | slotmap.dfy | Slotmap.cpp |
| `Input` | input.dfy | WinMain.cpp |

## Model

| member | source | states |
|---|---|---|
| Quaternions.AddLaws | src/Quat.cpp:51-53 | addition is commutative and associative with the zero quaternion as unit, and the dot product distributes over it |
| Quaternions.Sub | src/Quat.cpp:55-57 | subtraction is undone by addition: (a - b) + b == a |
| Quaternions.Scale | src/Quat.cpp:59-61 | scaling by 1 is the identity and scaling by 0 gives the zero quaternion |
| Quaternions.Neg | src/Quat.cpp:63-65 | unary minus is the additive inverse: q + (-q) is zero |
| Quaternions.NegInvolution | src/Quat.cpp:63-65 | negating twice gives back the quaternion |
| Quaternions.EqualityLaws | src/Quat.cpp:67-76 | `==` is reflexive and symmetric, holds exactly when every component is within QUAT_EPSILON, and `!=` is its negation |
| Quaternions.DotLaws | src/Quat.cpp:89-95 | dot is symmetric, a quaternion dotted with itself is lenSq, and negating one argument negates the dot |
| Quaternions.LenSq | src/Quat.cpp:93-95 | the squared length is never negative |
| Quaternions.Conjugate | src/Quat.cpp:126-146 | the product of q with its conjugate, on either side, is the real quaternion whose w is lenSq(q); the conjugate has the same squared length |
| Quaternions.ConjugateInvolution | src/Quat.cpp:126-128 | conjugating twice gives the quaternion back |
| Quaternions.Mul | src/Quat.cpp:139-146 | the identity quaternion is a two-sided unit of the product |
| Quaternions.MulIsHamilton | src/Quat.cpp:139-146 | `q1 * q2` is the textbook Hamilton product q2 (x) q1, so the right operand is the outer factor |
| Quaternions.MulAssociative | src/Quat.cpp:139-146 | the quaternion product is associative |
| Quaternions.RotateMul | src/Quat.cpp:139-152 | rotating a vector by `q1 * q2` rotates it by q1 first and then by q2 |
| Quaternions.MulConjugate | src/Quat.cpp:126-146 | the conjugate scaled by the reciprocal squared length is a two-sided inverse under the product |
| Quaternions.Inverse | src/Quat.cpp:130-137 | a near-zero quaternion (lenSq below QUAT_EPSILON) inverts to the identity; any other quaternion's inverse multiplies with it to the identity on both sides |
| Quaternions.InverseIdentity | src/Quat.cpp:130-137 | the identity is its own inverse |
| Quaternions.InverseOfUnit | src/Quat.cpp:126-137 | a quaternion of unit squared length inverts to its conjugate |
| Quaternions.RotateByIdentity | src/Quat.cpp:148-152 | rotating by the identity quaternion leaves every vector unchanged |
| Quaternions.RotateZero | src/Quat.cpp:148-152 | every quaternion maps the zero vector to itself |
| Quaternions.RotateNegate | src/Quat.cpp:148-152 | rotation commutes with negating the vector |
| Quaternions.Sandwich | src/Quat.cpp:148-152 | the rotation formula equals the sandwich product q (v, 0) q*, whose scalar part is zero |
| Quaternions.RotateAdditive | src/Quat.cpp:148-152 | rotation distributes over vector addition |
| Quaternions.RotateScaled | src/Quat.cpp:148-152 | rotation commutes with scaling the vector by a number |
| Quaternions.RotateIsLinear | src/Quat.cpp:148-152 | rotating any vector equals combining the rotated unit axes with the vector's components, i.e. quaternion-vector rotation is a linear map |
| Quaternions.Mix | src/Quat.cpp:154-156 | the blend is `from` at t = 0, `to` at t = 1, and constant when the endpoints agree; MixSymmetric relates every other t |
| Quaternions.MixSymmetric | src/Quat.cpp:154-156 | blending from `from` to `to` at t equals blending from `to` to `from` at 1 - t |
| Quaternions.Normalized | src/Quat.cpp:117-124 | a near-zero quaternion normalises to the identity |
| Quaternions.Normalize | src/Quat.cpp:105-115 | the in-place form leaves a near-zero quaternion unchanged and otherwise agrees with `normalized` |
| Quaternions.Nlerp | src/Quat.cpp:158-160 | the normalised blend starts at normalized(from) and ends at normalized(to) |
| Quaternions.SameOrientationAsWrittenIgnoresW | src/Quat.cpp:78-87 | the function as written accepts (0.6, 0, 0, 0.8) and (0.6, 0, 0, -0.8), which the intended test rejects |
| Quaternions.SameOrientationAsWrittenIgnoresRightW | src/Quat.cpp:78-87 | the function as written gives the same answer whatever the value of `right.w` |
| Quaternions.SameOrientationLaws | src/Quat.cpp:78-87 | the corrected test is reflexive and symmetric, accepts q against -q, and is unchanged by negating either argument |
| Transforms.Combine | src/Transform.cpp:4-11 | the default transform is a left and right unit of combine, and the combined scale is the per-axis product of the two scales |
| Transforms.CombineComposes | src/Transform.cpp:4-11 | when the parent's scale is the same on every axis, `transformPoint` by `combine(a, b)` is `transformPoint` by b followed by a, which fixes b's rotation as the one applied first |
| Transforms.RecipScale | src/Transform.cpp:13-22 | a scale component within VEC3_EPSILON of zero inverts to 0; any other component's reciprocal multiplies with it to 1 |
| Transforms.Inverse | src/Transform.cpp:13-22 | when no scale component is within VEC3_EPSILON of zero and the rotation is not near zero, combining the inverse with the transform gives the default transform; a scale component within VEC3_EPSILON of zero inverts to 0; the rotation is the quaternion inverse |
| Transforms.InverseCancels | src/Transform.cpp:4-22 | the transform built from the inverted rotation, the guarded reciprocal scale and the negated position brought through both cancels the original from the left when no guard fires |
| Transforms.InverseDefault | src/Transform.cpp:13-22 | the default transform is its own inverse |
| Transforms.Mix | src/Transform.cpp:24-32 | position and scale are interpolated linearly; the rotation blend flips b's rotation when it lies in the opposite hemisphere; at t = 0 the result is a with its rotation normalised |
| Transforms.MixIgnoresRotationSign | src/Transform.cpp:24-32 | negating b's rotation quaternion (the same orientation) does not change the mix |
| Transforms.TransformVector | src/Transform.cpp:73-77 | with identity rotation and unit scale a vector passes through unchanged |
| Transforms.TransformPoint | src/Transform.cpp:66-71 | a point transform is the vector transform plus the translation, and the default transform fixes every point |
| Transforms.EqualityPerField | src/Transform.cpp:79-87 | two transforms are equal exactly when their positions, rotations and scales are each equal under tolerance; `!=` is the negation; equality is reflexive when vector equality is |
| Transforms.ToMat4 | src/Transform.cpp:34-48 | the matrix's last column is the position with w = 1 and its basis columns have w = 0 |
| Transforms.DefaultToIdentityMatrix | src/Transform.cpp:34-48 | the default transform's matrix is the identity matrix |
| Transforms.MatrixAgreesWithTransformPoint | src/Transform.cpp:34-71 | applying the matrix of a transform to a point gives the same point as transformPoint |
| Vectors.Lerp | src/Track.cpp:12-14 | vector interpolation is `from` at 0, `to` at 1, and constant when the endpoints agree; LerpSymmetric relates every other t |
| Vectors.LerpSymmetric | src/Track.cpp:12-14 | interpolating from `from` to `to` at t equals interpolating from `to` to `from` at 1 - t |
| TrackTime.NewTrack | src/Track.cpp:39-41 | a new track is empty and linear |
| TrackTime.StartTime | src/Track.cpp:43-45 | on a sorted track the start time bounds every keyframe time from below |
| TrackTime.EndTime | src/Track.cpp:47-49 | on a sorted track the end time bounds every keyframe time from above |
| TrackTime.FModF | src/Track.cpp:159-186 | the remainder is undefined (NaN) exactly for a zero divisor; otherwise it is smaller than the divisor in magnitude and has the sign of the dividend |
| TrackTime.WrapTime | src/Track.cpp:129-186 | the looping wrap is undefined exactly for a zero span, and for a positive span lands in [start, end) |
| TrackTime.WrapIsFloorMod | src/Track.cpp:129-186 | the wrap (truncated remainder plus sign correction) equals start plus the floored remainder of time - start by the span |
| TrackTime.WrapOneSpan | src/Track.cpp:129-186 | moving the time by one span does not change the wrapped time |
| TrackTime.WrapPeriodic | src/Track.cpp:129-186 | moving the time by any whole number of spans, in either direction, does not change the wrapped time |
| TrackTime.WrapInside | src/Track.cpp:129-186 | a time already inside [start, end) wraps to itself |
| TrackTime.ScanBack | src/Track.cpp:129-157 | the backward scan returns the highest index at or below its start whose time is at most the query, or -1 |
| TrackTime.FrameIndex | src/Track.cpp:129-157 | the index is -1 for tracks with fewer than two keyframes and otherwise lies in range; a looping lookup's keyframe is at or before the wrapped time |
| TrackTime.FrameIndexLocates | src/Track.cpp:129-157 | on a sorted clamped track the index starts a segment: 0 at or before the first keyframe, the last segment at or after the second-to-last keyframe, and otherwise the segment containing the time |
| TrackTime.FrameIndexLoopingLocates | src/Track.cpp:129-157 | on a sorted looping track the index is the keyframe that starts the segment containing the wrapped time |
| TrackTime.FrameIndexPeriodic | src/Track.cpp:129-157 | for a looping track, shifting the time by whole spans does not change the index |
| TrackTime.AdjustTime | src/Track.cpp:159-186 | a track with fewer than two keyframes gives 0 for the scalar kind and -1 for the vector and quaternion kinds; a track whose last time is not after its first gives 0; any other track's adjusted time lies in [start, end] |
| TrackTime.AdjustTimeMatchesReference | src/Track.cpp:159-186 | on a track with positive span, the clamped adjustment is clamp(time, start, end) and the looping adjustment is start plus the floored remainder |
| TrackTime.AdjustTimePeriodic | src/Track.cpp:159-186 | a looping adjustment is periodic in the span |
| TrackTime.LocateSegment | src/Track.cpp:73-92 | the linear and cubic prologue either fails (index out of range or non-positive segment duration) or yields a segment whose fraction t times its duration is the adjusted time's offset into the segment |
| TrackTime.LocateSegmentPeriodic | src/Track.cpp:73-92 | a looping track's segment lookup is periodic in the span |
| TrackTime.LocateSegmentAtKeyframe | src/Track.cpp:73-92 | at the time of keyframe i (not the last) a sorted clamped track finds segment i at fraction 0 |
| TrackTime.LocateSegmentBeforeStart | src/Track.cpp:73-92 | at or before the first keyframe a sorted clamped track finds segment 0 at fraction 0 |
| TrackTime.LocateSegmentAfterEnd | src/Track.cpp:73-92 | at or after the last keyframe a sorted clamped track finds the last segment at fraction 1 |
| TrackTime.LocateSegmentInside | src/Track.cpp:73-92 | on a sorted track, looping or not, a time inside segment i is located in segment i, with that segment's duration and the elapsed fraction of it |
| TrackTime.FrameIndexInside | src/Track.cpp:129-186 | on a sorted track, looping or not, a time inside segment i gets frame index i and is not moved by the time adjustment |
| TrackTime.SampleConstant | src/Track.cpp:65-71 | the constant sample is the value of the keyframe the lookup selects when that index is within the kind's bound (every keyframe for the scalar track, all but the last for the other two), and the default value otherwise |
| TrackTime.ConstantHoldsSegmentStart | src/Track.cpp:65-71 | on a sorted track the constant sample is the value of the keyframe starting the segment that contains the adjusted time |
| TrackTime.SampleConstantPeriodic | src/Track.cpp:65-71 | the constant sample of a looping track is periodic in the span |
| TrackSampling.HermiteBasis | src/Track.cpp:117-127 | the four weights reproduce the cubics 1, t, t^2 and t^3 from their end values and slopes, which fixes all four weights; at t = 0 only the first point weighs, at t = 1 only the second |
| TrackSampling.InterpolateScalar | src/Track.cpp:8-10 | the blend hits the endpoints at 0 and 1, is constant for equal endpoints, and stays between them for t in [0, 1], in either order |
| TrackSampling.InterpolateScalarSymmetric | src/Track.cpp:8-10 | blending from a to b at t equals blending from b to a at 1 - t |
| TrackSampling.HermiteScalar | src/Track.cpp:117-127 | the curve passes through p1 at t = 0 and p2 at t = 1; HermiteReproducesCubic gives its value everywhere |
| TrackSampling.HermiteReproducesCubic | src/Track.cpp:117-127 | given the end values and end slopes of any cubic polynomial, the Hermite blend returns that polynomial at every t |
| TrackSampling.HermiteReproducesLine | src/Track.cpp:117-127 | a line through p with slope s, given by its end values and slopes, is reproduced exactly |
| TrackSampling.HermiteScalarFlat | src/Track.cpp:117-127 | with equal points and zero slopes the curve is constant |
| TrackSampling.SampleLinearScalar | src/Track.cpp:73-92 | a failed segment lookup samples to 0; SampleScalarInside gives the value inside a segment |
| TrackSampling.SampleCubicScalar | src/Track.cpp:94-115 | a failed segment lookup samples to 0; SampleScalarInside gives the value inside a segment, with tangents scaled by the segment duration |
| TrackSampling.SampleScalar | src/Track.cpp:51-59 | sampling dispatches to the constant, linear or cubic sampler by the track's mode |
| TrackSampling.SampleScalarAtKeyframe | src/Track.cpp:51-127 | a sorted clamped track sampled at keyframe i's time (not the last) gives that keyframe's value, in every mode |
| TrackSampling.SampleScalarOutsideRange | src/Track.cpp:51-127 | a sorted clamped linear or cubic track holds its first value before the start and its last value after the end |
| TrackSampling.SampleScalarPeriodic | src/Track.cpp:51-127 | a looping scalar track samples the same at times a whole number of spans apart |
| TrackSampling.RampExample | src/Track.cpp:51-127 | a two-keyframe ramp from 0 at time 0 to 10 at time 1, with flat tangents, samples to 5 at time 0.5 when linear or cubic and to 0 when constant |
| TrackSampling.SampleScalarInside | src/Track.cpp:65-115 | on a sorted track, looping or not, a time inside segment i of duration d at elapsed fraction u samples to keyframe i's value when constant, the linear blend of keyframes i and i + 1 at u when linear, and the Hermite blend at u with keyframe i's out-tangent and keyframe i + 1's in-tangent each multiplied by d when cubic |
| TrackSampling.CubicMatchesLinearScalar | src/Track.cpp:73-127 | inside a segment whose out- and in-tangents, scaled by its duration, both equal the change in value, cubic sampling equals linear sampling |
| TrackSampling.HermiteVec3 | src/Track.cpp:265-275 | the vector Hermite is the scalar Hermite per component, and passes through p1 and p2 at the ends |
| TrackSampling.SampleVec3 | src/Track.cpp:204-212 | sampling dispatches by mode, with the zero vector as the constant sampler's default |
| TrackSampling.SampleVec3AtKeyframe | src/Track.cpp:204-275 | a sorted clamped vector track sampled at keyframe i's time gives that keyframe's value |
| TrackSampling.SampleVec3OutsideRange | src/Track.cpp:204-275 | a sorted clamped linear or cubic vector track holds its end values outside its range |
| TrackSampling.SampleVec3Inside | src/Track.cpp:216-264 | on a sorted vector track, looping or not, a time inside segment i samples to keyframe i's value, the lerp at the elapsed fraction, or the Hermite blend with the out- and in-tangents scaled by the segment duration, by mode |
| TrackSampling.CubicMatchesLinearVec3 | src/Track.cpp:223-275 | inside a segment whose scaled tangents both equal the change in value, cubic vector sampling equals linear sampling |
| TrackSampling.SampleVec3Periodic | src/Track.cpp:204-275 | a looping vector track samples the same at times a whole number of spans apart |
| TrackSampling.Neighborhood | src/Track.cpp:28-32 | the result is b when dot(a, b) is not negative and -b when it is negative, so it always lies in a's hemisphere |
| TrackSampling.InterpolateQuat | src/Track.cpp:16-22 | the quaternion blend starts at normalized(a) and ends at the normalised neighbourhood-corrected b |
| TrackSampling.InterpolateQuatIgnoresSign | src/Track.cpp:16-22 | replacing b by -b, which is the same orientation, does not change the blend |
| TrackSampling.HermiteQuat | src/Track.cpp:424-438 | the quaternion Hermite starts at normalized(p1) and ends at the normalised neighbourhood-corrected p2; HermiteQuatIgnoresSign states the correction |
| TrackSampling.HermiteQuatIgnoresSign | src/Track.cpp:424-438 | only p2 is neighbourhood-corrected, and s2 is left alone: replacing p2 by -p2 does not change the blend unless p1 and p2 are orthogonal, for any square root |
| TrackSampling.SampleQuat | src/Track.cpp:353-361 | sampling dispatches by mode, with the identity rotation as the constant sampler's default |
| TrackSampling.SampleQuatAtKeyframe | src/Track.cpp:353-397 | a sorted clamped linear quaternion track sampled at keyframe i's time gives that keyframe's value, normalised |
| TrackSampling.SampleQuatInside | src/Track.cpp:367-422 | on a sorted quaternion track, looping or not, a time inside segment i samples to keyframe i's rotation, the neighbourhood blend at the elapsed fraction, or the Hermite blend of the normalised keyframes with the tangents scaled by the segment duration, by mode |
| TrackSampling.SampleQuatPeriodic | src/Track.cpp:353-438 | a looping quaternion track samples the same at times a whole number of spans apart |
| TransformTracks.NewTransformTrack | src/TransformTrack.cpp:3-5 | a new transform track has id 0, animates no channel, and its channels are linear |
| TransformTracks.StartTime | src/TransformTrack.cpp:7-30 | an unanimated track starts at 0; otherwise the start is no later than any animated channel's first keyframe and equals one of them |
| TransformTracks.EndTime | src/TransformTrack.cpp:33-56 | an unanimated track ends at 0; otherwise the end is no earlier than any animated channel's last keyframe and equals one of them |
| TransformTracks.Sample | src/TransformTrack.cpp:62-74 | each channel with more than one keyframe overwrites its field of the reference transform; every other field is the reference's |
| TransformTracks.SampleInvalidIsIdentity | src/TransformTrack.cpp:58-74 | a track that animates nothing returns the reference transform unchanged |
| TransformTracks.SampleIgnoresOverwrittenChannels | src/TransformTrack.cpp:62-74 | the result does not depend on the reference fields that animated channels overwrite |
| TransformTracks.StartNotAfterEnd | src/TransformTrack.cpp:7-60 | a valid track whose animated channels are sorted starts strictly before it ends |
| Clips.NewClip | src/Clip.cpp:3-8 | a new clip has no tracks, is named "No Name", does not loop, and has zero duration |
| Clips.IdAtIndex | src/Clip.cpp:10-12 | the id read is the id of one of the clip's tracks |
| Clips.SetIdAtIndex | src/Clip.cpp:14-16 | retagging a track changes that track's id only, and nothing else in the clip |
| Clips.IndexOfId | src/Clip.cpp:34-44 | the search returns the first track carrying the id, or -1 exactly when no track does |
| Clips.TrackFor | src/Clip.cpp:34-44 | the returned index names a track for the joint; an existing track is reused and the clip is unchanged; otherwise one new track for the joint is appended |
| Clips.TrackForIdempotent | src/Clip.cpp:34-44 | asking twice for the same joint's track gives the same clip and index as asking once |
| Clips.TrackForKeepsIdsDistinct | src/Clip.cpp:34-44 | if joint ids were distinct among the tracks, they stay distinct |
| Clips.RecalculateDuration | src/Clip.cpp:46-66 | the recomputed range is the earliest start and latest end over the valid tracks, or [0, 0] when no track is valid; the tracks are unchanged |
| Clips.DurationPositiveIffValidTrack | src/Clip.cpp:46-70 | after recalculation with sorted tracks the duration is never negative, and it is positive exactly when some track is valid |
| Clips.AdjustTimeToFitRange | src/Clip.cpp:72-93 | a looping clip with non-positive duration gives 0 and otherwise wraps into [start, end); a clamped clip keeps a time inside its range and otherwise lands in [start, end] |
| Clips.AdjustTimeToFitRangeMatchesReference | src/Clip.cpp:72-93 | for a positive range, the clamped result is clamp(time, start, end) and the looping one is start plus the floored remainder |
| Clips.AdjustTimeToFitRangePeriodic | src/Clip.cpp:72-93 | a looping clip's fitted time is periodic in its duration |
| Clips.AdjustTimeToFitRangeIdempotent | src/Clip.cpp:72-93 | fitting an already fitted time changes nothing |
| Clips.TrackedJoints | src/Clip.cpp:18-32 | the set of joints a clip writes is exactly the set of its tracks' ids |
| Clips.Sample | src/Clip.cpp:18-32 | a zero-duration clip leaves the pose alone and returns 0; otherwise it returns the fitted time, changes only the joints it tracks, and with distinct ids sets each tracked joint to its track's sample over the old local transform |
| Channels.ToInterpolation | src/Clip.cpp:148-164 | glTF LINEAR maps to linear, CUBICSPLINE to cubic, and STEP to constant, each in both directions |
| Channels.SlotInRange | src/Clip.cpp:165-183 | every float the unpacking loop reads for keyframe i lies inside the value array |
| Channels.UnpackVec3 | src/Clip.cpp:148-184 | one keyframe per time, with the channel's times, the mapped interpolation, and zero tangents unless cubic |
| Channels.UnpackQuat | src/Clip.cpp:186-222 | one keyframe per time, with the channel's times, the mapped interpolation, and zero tangents unless cubic |
| Channels.FlattenLayout | src/Clip.cpp:165-183 | blocks of a common width laid end to end put block i's float k at i * width + k |
| Channels.PackedStride | src/Clip.cpp:165-172 | packed arrays of n keyframes have a value count that divides back to exactly the keyframe width |
| Channels.UnpackPackVec3 | src/Clip.cpp:148-184 | unpacking a vector track's own channel arrays gives back the track, for any non-empty track whose tangents are zero unless it is cubic |
| Channels.UnpackPackQuat | src/Clip.cpp:186-222 | unpacking a quaternion track's own channel arrays gives back the track, under the same condition |
| Poses.Resize | src/Pose.cpp:37-40 | both arrays get the new length; entries below the old length are kept; new joints are default transforms and new parents are 0 |
| Poses.ResizeIdempotent | src/Pose.cpp:37-40 | resizing twice to the same length equals resizing once |
| Poses.ResizeFromEmpty | src/Pose.cpp:5-7 | a pose built with n joints is well formed, with default joints and parents 0 |
| Poses.Size | src/Pose.cpp:42-44 | the size of a well-formed pose is also the length of its parent array |
| Poses.SizeAfterResize | src/Pose.cpp:37-44 | after resizing to n the pose is well formed and its size is n |
| Poses.SetLocal | src/Pose.cpp:50-53 | setting a joint's local transform changes that joint only, and no parent |
| Poses.SetParent | src/Pose.cpp:83-85 | setting a parent changes that parent only, and no joint |
| Poses.SetGetLocal | src/Pose.cpp:46-53 | reading after a write gives the written value at the written index and the old value elsewhere |
| Poses.GetSetLocal | src/Pose.cpp:46-53 | writing back the joint just read leaves the pose unchanged |
| Poses.SetGetParent | src/Pose.cpp:79-85 | reading a parent after a write gives the written parent at that index and the old one elsewhere, and writing back the parent just read changes nothing |
| Poses.GetGlobal | src/Pose.cpp:55-61 | a root joint's global transform is its local transform |
| Poses.GlobalUnfolds | src/Pose.cpp:55-61 | a child's global transform is the walk from its grandparent with its parent's local transform combined in front of its own |
| Poses.GlobalOfThreeChain | src/Pose.cpp:55-61 | in a root, middle, leaf chain the leaf's global transform is combine(root, combine(mid, leaf)) |
| Poses.WalkFuelIrrelevant | src/Pose.cpp:55-61 | once the parent chain ends, allowing more steps does not change the result |
| Poses.GlobalFrame | src/Pose.cpp:55-61 | changing a joint that is not an ancestor of i leaves i's global transform unchanged |
| Poses.GetMatrixPalette | src/Pose.cpp:67-77 | the palette has one matrix per joint, entry i being the matrix of joint i's global transform |
| Poses.Equal | src/Pose.cpp:87-111 | the result is true exactly when sizes match, parents match and joints are equal under tolerance, index by index |
| Poses.NotEqual | src/Pose.cpp:113-115 | the result is the negation of pose equality |
| Poses.SamePoseReflexive | src/Pose.cpp:87-111 | with reflexive vector equality every well-formed pose equals itself |
| Poses.NodeIndex | src/Pose.cpp:135-145 | the result is -1 exactly for a null or absent node; otherwise it is the first position holding the node |
| Poses.LocaliseBindPose | src/Pose.cpp:195-205 | roots keep their world bind transform; every other joint becomes its parent's inverse world transform combined with its own; parents are unchanged |
| Skeletons.InverseBindPose | src/Skeleton.cpp:7-13 | entry i inverts the matrix of joint i's global bind transform, and for a root the matrix of its local transform |
| Skeletons.SetPoses | src/Skeleton.cpp:3-14 | rest and bind poses are stored as given, and the inverse-bind array has one entry per bind joint, equal to the inverse of its global matrix |
| Skeletons.RootsAreAcyclic | src/Pose.cpp:55-61 | a pose whose joints are all roots has a finite parent walk from every joint |
| Skeletons.DefaultBindPose | src/Skeleton.cpp:3-14 | a bind pose of unparented default joints gets the inverse of the identity matrix for every joint |
| Slotmaps.Initialize | src/Slotmap.cpp:7-18 | the empty map has count, generation and free-list head 0, and every slot marked free and linked to the next |
| Slotmaps.InitializeValid | src/Slotmap.cpp:7-18 | the initialised map satisfies the slot-map invariant and no key is live in it |
| Slotmaps.Add | src/Slotmap.cpp:20-35 | the key returned is the old free-list head with the current generation; count and generation grow by one; the head advances to the next free slot |
| Slotmaps.AddValid | src/Slotmap.cpp:20-35 | adding under the asserted limits preserves the slot-map invariant |
| Slotmaps.GetAfterAdd | src/Slotmap.cpp:20-66 | the key returned by add is live and reads back the component added |
| Slotmaps.AddKeepsOthers | src/Slotmap.cpp:20-66 | adding does not change what any other live key reads |
| Slotmaps.Get | src/Slotmap.cpp:60-66 | a live key reads the component stored at the data index whose back-pointer names its slot |
| Slotmaps.Remove | src/Slotmap.cpp:37-58 | removal shrinks the count by one, keeps the generation, and puts the slot at the head of the free list, marked free |
| Slotmaps.RemoveValid | src/Slotmap.cpp:37-58 | removal preserves the slot-map invariant, including the swap of the last component into the hole |
| Slotmaps.RemoveKeepsOthers | src/Slotmap.cpp:37-66 | removing one key does not change what any other live key reads, even when its component was moved |
| Slotmaps.RemoveRetires | src/Slotmap.cpp:37-66 | a removed key no longer matches its slot |
| Slotmaps.AddKeepsRetired | src/Slotmap.cpp:20-66 | a retired key stays retired after later additions, even when its slot is reused |
| Slotmaps.RemoveKeepsRetired | src/Slotmap.cpp:37-66 | a retired key stays retired after later removals |
| Slotmaps.RetiredDoesNotMatch | src/Slotmap.cpp:60-66 | a retired key's generation never matches its slot, so lookup rejects it |
| Slotmaps.RoomMeansFreeSlot | src/Slotmap.cpp:20-35 | when the map is not full the free-list head is a slot marked free |
| Input.JustDown | src/WinMain.cpp:345-350 | "just down" holds exactly when the button is down now and was not down in the previous frame |
| Input.JustUp | src/WinMain.cpp:352-357 | "just up" holds exactly when the button was down in the previous frame and is not down now |
| Input.Down | src/WinMain.cpp:341-343 | "down" holds exactly when the button was just pressed or was already down last frame and still is; a just-released button is not down |
| Input.Up | src/WinMain.cpp:359-361 | "up" holds exactly when the button was just released or was already up last frame and still is; a just-pressed button is not up |
| Input.EdgesExclusive | src/WinMain.cpp:341-361 | a button is never both just down and just up; just down implies not up; just up implies up; down and up are complementary |
| Input.PhasesPartition | src/WinMain.cpp:341-361 | every button is just pressed, held, just released or still released; a held button was down last frame and a still-released one was not |
| Input.KeyboardGetKeyDown | src/WinMain.cpp:341-343 | a key is down exactly when it was just pressed or was held through both frames |
| Input.KeyboardGetKeyJustDown | src/WinMain.cpp:345-350 | a key is just down exactly when it is down this frame and was not last frame |
| Input.KeyboardGetKeyJustUp | src/WinMain.cpp:352-357 | a key is just up exactly when it was down last frame and is not this frame |
| Input.KeyboardGetKeyUp | src/WinMain.cpp:359-361 | a key is up exactly when it was just released or was up through both frames |
| Input.MouseGetButtonDown | src/WinMain.cpp:363-365 | a mouse button is down exactly when it was just pressed or was held through both frames |
| Input.MouseGetButtonJustDown | src/WinMain.cpp:367-372 | a mouse button is just down exactly when it is down this frame and was not last frame |
| Input.MouseGetButtonJustUp | src/WinMain.cpp:374-379 | a mouse button is just up exactly when it was down last frame and is not this frame |
| Input.MouseGetButtonUp | src/WinMain.cpp:381-383 | a mouse button is up exactly when it was just released or was up through both frames |
| Input.JoystickGetButtonDown | src/WinMain.cpp:404-406 | a joystick button is down exactly when it was just pressed or was held through both frames |
| Input.JoystickGetButtonJustDown | src/WinMain.cpp:408-413 | a joystick button is just down exactly when it is down this frame and was not last frame |
| Input.JoystickGetButtonJustUp | src/WinMain.cpp:415-420 | a joystick button is just up exactly when it was down last frame and is not this frame |
| Input.JoystickGetButtonUp | src/WinMain.cpp:422-424 | a joystick button is up exactly when it was just released or was up through both frames |
| Input.StickValue | src/WinMain.cpp:66-78 | readings inside the dead zone give 0; the result lies in [-1, 1] and is positive (negative) exactly when the reading is beyond the dead zone in that direction |
| Input.StickExtremes | src/WinMain.cpp:66-78 | the extreme readings 32767 and -32768 map to 1 and -1 |
| Input.StickMonotone | src/WinMain.cpp:66-78 | a larger reading never gives a smaller stick value |
| Input.FlattenWheel | src/WinMain.cpp:115-122 | any negative wheel delta records -1, any positive one records 1, and a zero delta keeps the previous value |
| Input.Apply | src/WinMain.cpp:93-122 | one message changes only what it concerns: a key message sets that key's current state, a mouse button message sets the three buttons, a wheel message the wheel; the previous-frame states and joystick are untouched |
| Input.Pump | src/WinMain.cpp:84-127 | pumping reports a quit exactly when a quit message is in the queue, and leaves the joystick untouched |
| Input.PumpMatchesReference | src/WinMain.cpp:84-127 | after the pump each key's state is that of its last key-transition message, auto-repeat presses being ignored (or unchanged without one), and the wheel is the flattened sign of the last non-zero wheel delta (or unchanged) |
| Input.LastKeyState | src/WinMain.cpp:93-98 | there is a last state for a key exactly when some key-transition message (not an auto-repeat press) names it |
| Input.LastWheel | src/WinMain.cpp:115-122 | the last wheel value is -1 or 1, and absent exactly when no wheel message has a non-zero delta |
| Input.PadButtons | src/WinMain.cpp:129-152 | each joystick button is down exactly when a pad is connected and its mask bit is set; the previous-frame state is kept |
| Input.Axis | src/WinMain.cpp:129-152 | a disconnected pad gives 0 on every axis; a connected pad gives the dead-zoned reading of that axis with that stick's dead zone |
| Input.ReadPad | src/WinMain.cpp:129-152 | the gamepad read changes only the joystick part of the state: buttons follow the mask bits and sticks are dead-zoned, all released and 0 without a pad |
| Input.LatchButtons | src/WinMain.cpp:155-178 | each latched button keeps its current state and takes the previous frame's current state as its previous state |
| Input.ProcessInput | src/WinMain.cpp:80-179 | the frame reports quit exactly when a quit message arrived; the wheel is -1, 0 or 1; every key, mouse and joystick button's previous state is last frame's current state; without a pad no joystick button is down |
| Input.ProcessInputKeys | src/WinMain.cpp:80-179 | a key is down as its last key message this frame said, or as it was before the frame; it is just down exactly when it is down and was up last frame, and just up exactly when it is up and was down last frame |
| Input.ProcessInputJoystick | src/WinMain.cpp:80-179 | a joystick button is just down exactly when the pad holds it and it was up last frame, and just up exactly when the pad releases it and it was down; the sticks are the dead-zoned pad axes |
| Input.ProcessInputWheel | src/WinMain.cpp:80-179 | the frame's wheel is reset to 0 and becomes the sign of the last non-zero wheel delta |

## Left out

- Square roots, trigonometry and the rotations built on them are left out: `len`, `angleAxis`, `fromTo`, `getAxis`, `getAngle`, `operator^`, `slerp`, `lookRotation`, `quatToMat4` and `mat4ToQuat`. Where normalisation needs a reciprocal square root it is the parameter `rsqrt`.
- `mat4ToTransform` and the 4x4 matrix inverse belong to the matrix library. `Mat4.cpp` is not part of this model. The inverse is the parameter `inv4` of `Skeletons.SetPoses`.
- Vector tolerance equality lives in `Vec3.h`, which is not part of this model. It is the parameter `vecNear` of transform and pose equality.
- The float remainder and the Hermite, linear and dead-zone arithmetic are exact over the reals. IEEE rounding, infinities and NaN propagation are not modelled. The one NaN the control flow depends on, `fmodf` by a zero span, is `None`.
- The glTF file reading is left out because it is library I/O:
  - `LoadClips`, `LoadRestPose` and the node-transform reader `GetLocalTransform`;
  - `GetScalarValues`;
  - the accessor reads and matrix inversion of `LoadBindPose`.
  - The channel unpackers take the time and value floats as already-read sequences. `LoadBindPose`'s final localisation loop takes the world bind transforms as input.
- `TrackScalarFromChannel` is left out because it is compiled out (inside `#if 0`).
- Channels.UnpackVec3 and Channels.UnpackQuat require at least one keyframe time and a value stride wide enough for a keyframe. The source divides by the time count and then reads past the array otherwise, so those inputs have no defined behaviour to model. Integer overflow of the `int` base index is not modelled.
- Poses.NodeIndex identifies glTF nodes by a natural-number id standing for their address.
- Poses.GetGlobal requires that every parent chain ends at a root. The source's loop does not terminate on a cyclic parent array.
- Poses.Equal and Poses.NotEqual require at least as many parents as joints when both sizes match. The source reads parents by joint index.
- Clips.Sample requires every tracked joint id to be inside the pose when the clip has a non-zero duration. The source writes the pose at that index without a check.
- Slotmaps.Get and Slotmaps.Remove require a live key. The source only asserts on a generation mismatch, and the assertion is compiled out in release builds.
- Slotmaps.Add requires the count, generation and free-list limits that the source asserts.
- Slotmaps.Initialize takes the component and back-pointer arrays' initial contents as parameters. The source's `memset` calls leave them unspecified bytes, and no later read depends on them before a write.
- Quaternions.Normalized, Quaternions.Nlerp, TrackSampling.InterpolateQuat and TrackSampling.HermiteQuat state exactly only the near-zero guard and the endpoints. Other values depend on the `rsqrt` parameter.
- Quaternions.Mul states the identity laws in its own contract; associativity, the inverse laws and the order of composition are separate lemmas (Quaternions.MulAssociative, Quaternions.MulConjugate, Quaternions.Inverse, Quaternions.RotateMul).
- Transforms.Combine: composition of point transforms (Transforms.CombineComposes) is stated only for a parent whose scale is the same on every axis. With a non-uniform parent scale, `combine` keeps the scale per axis and cannot represent the resulting shear, so the law does not hold in general.
- Transforms.TransformVector states the identity case. Its partner Transforms.MatrixAgreesWithTransformPoint, with Transforms.TransformPoint, carries the general value.
- Poses.GetGlobal states only the root case. The walk through the ancestors is stated by Poses.GlobalUnfolds, Poses.GlobalOfThreeChain and Poses.GlobalFrame.
- TrackSampling.SampleLinearScalar, TrackSampling.SampleCubicScalar, TrackSampling.SampleLinearVec3, TrackSampling.SampleCubicVec3, TrackSampling.SampleLinearQuat and TrackSampling.SampleCubicQuat state only the failed-lookup default in their own contracts. The values inside a segment are stated by TrackSampling.SampleScalarInside, TrackSampling.SampleVec3Inside and TrackSampling.SampleQuatInside, and the cubic-equals-linear cases by TrackSampling.CubicMatchesLinearScalar and TrackSampling.CubicMatchesLinearVec3.
- Clips.IdAtIndex states only that the id belongs to one of the clip's tracks. Clips.SetIdAtIndex states the read-after-write.
- Input.StickValue is exact over the reals. The float division and its rounding are not modelled.
- The Win32 plumbing is left out:
  - the message loop and `TranslateMessage`/`DispatchMessage`;
  - window creation and the OpenGL context;
  - `XInputGetState` and timers.
  - Messages arrive as a sequence with the coordinate and wheel-delta macros already decoded. The gamepad arrives as an optional reading.
- The cursor getters and the mouse-move message are plain field reads and writes with no property to state.
- The Win32 and XInput constants are taken from the platform headers: the `MK_*` flags, the XInput button masks and the thumb dead zones.
- Rendering, meshes, shaders, textures, the camera, the game loop and `Vec2` are outside the animation and input core.

## Findings

| source | as written | input that shows it | evidently intended | confidence | as-written member | corrected member |
|---|---|---|---|---|---|---|
| src/Quat.cpp:78-87 | both w tests compare `left.w` with itself (once directly, once with its negation), so `right.w` never decides the result; the first branch ignores w entirely and the second instead requires `left.w` within QUAT_EPSILON / 2 of zero | (0.6, 0, 0, 0.8) against (0.6, 0, 0, -0.8): accepted, although neither equals the other or its negation | compare `left.w` with `right.w`: the same orientation means equal or equal to the negation | not executed | Quaternions.SameOrientationAsWrittenIgnoresW | Quaternions.SameOrientationLaws |
