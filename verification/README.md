# Time-indexed pose interpolation, and point distance

This project is a Dafny model of a small C++ robotics library. Its core is an
engine that, given time-stamped poses (a position in 3-D and an orientation
quaternion) and a query time, returns the pose at that time. If the time is a
stored sample, the modern engines return that sample on sorted timestamps, as
the library documents its input. The traditional engines
return it at the first and the last sample; at an interior stored time they
interpolate from that sample with fraction 0. That gives the sample back when
its orientation is a unit quaternion. A non-unit orientation that is near-parallel
to the next sample's comes back normalised.
A time between samples is interpolated from the two samples that bracket it:

- it clamps the fraction `(target - t1) / (t2 - t1)` into [0, 1];
- it lerps the position;
- it SLERPs the orientation along the shortest arc.

The engine exists in four variants:

| variant | search | works on |
|---|---|---|
| a2 traditional | endpoint checks, then a linear scan | vectors, returning indices |
| a2 modern | `std::lower_bound` | vectors, returning indices |
| a3 traditional | the same endpoint checks and scan | vectors, lists and maps, returning iterators |
| a3 modern | `lower_bound` | vectors, lists and maps, with an extra guard against a near-zero time gap |

Under the engine sits the geometry layer of `include/pose.hpp`:

- `Vector3` with `+`, `-` and scalar `*`;
- `Quaternion` with `normalize`, the Hamilton product, scalar `*` and `+`;
- `Pose` and `TimedPose`.

Beside it are the two Euclidean point-distance routines.

Modules, one per source unit:

- `Outcomes`: the three exception types as `Error`, plus `Result` and `Option`.
- `Transcendental`: `std::sqrt`, `std::acos` and `std::sin` as a `MathLib` parameter. `Lawful` states the facts the proofs use.
- `Geometry`: `include/pose.hpp`.
  - The default-constructed values are the constants `ZeroVector`, `IdentityQuaternion`, `DefaultPose` and `DefaultTimedPose` (timestamp 0).
- `Interpolation`: the pose interpolation shared by the variants.
  - `InterpolatePose` is the version that normalises with `Quaternion::normalize`.
  - `InterpolatePoseInline` is the a2 modern version, whose normalisation is written inline.
- `Timeline`: the searches over the timestamps, namely the linear scan and `std::lower_bound`'s halving loop. A position in the timestamp sequence stands for an index or an iterator.
- `PoseTimeTraditional` and `PoseTimeModern`: the a2 engines.
- `Containers`: the containers the a3 engines accept.
  - A vector or a list is a `Sequence`.
  - A `std::map<double, TimedPose>` is an `OrderedMap` of (key, value) entries in key order.
  - Element dispatch reads the element's own `time_stamp` from a `Sequence` and the key from an `OrderedMap`.
- `ContainerTraditional` and `ContainerModern`: the a3 engines.
- `Agreement`: how the variants relate.
  - The a3 traditional engine on a vector is the a2 traditional engine, and each a3 finder on a vector is the matching a2 finder.
  - The two modern engines are not equal on a vector: only the a3 one has the near-zero-gap guard.
  - When the timestamps strictly increase, the map built by `poses_map[p.time_stamp] = p` holds each sample under its own timestamp, and it behaves like the vector.
  - On sorted input, the scan and `lower_bound` agree wherever the query is not a stored time.
- `Divergence`: where the variants part ways, each shown on a concrete input:
  - repeated timestamps;
  - unsorted timestamps, on which lower_bound can miss a stored time;
  - the near-zero-gap guard, which also separates the two modern engines on a vector;
  - the tolerance test of `isOriginalTimestamp` versus an exact key lookup.
- `Demo`: the five-sample trajectory the demonstrations interpolate, and the positions at the demonstration times.
- `PointDistance`: `distance_traditional` and `distance_modern`.

Behaviour of the code worth knowing when reading the model:

- Only the a3 modern engine guards against a near-zero time gap, and it then returns the earlier sample. The other three variants divide by the gap.
- The elements of a map are (key, `TimedPose`) pairs, and an element's time is its key.
- The `runtime_error` of the traditional scans and the `nullopt` of the `lower_bound` searches cannot be reached after the range check, even when the timestamps are not sorted.
- The C++ standard asks `std::lower_bound` for a range partitioned by the comparison. On unsorted timestamps the model runs the halving loop that libstdc++ and libc++ implement, and its results there are those of that loop.

## Model

| member | source | states |
|---|---|---|
| Geometry.Add | include/pose.hpp:23-26 | adding b and then subtracting b gives a back; adding the zero vector changes nothing |
| Geometry.Sub | include/pose.hpp:29-32 | a - a is the zero vector; subtracting the zero vector changes nothing; 0 - b is b scaled by -1 |
| Geometry.AddUndoesSub | include/pose.hpp:23-32 | adding b back to a - b gives a, the converse of Add's round trip |
| Geometry.Scale | include/pose.hpp:35-38 | scaling by 1 keeps the vector; scaling by 0, or scaling the zero vector, gives the zero vector |
| Geometry.QScale | include/pose.hpp:88-91 | scaling a quaternion by 1 keeps it, by 0 gives the zero quaternion |
| Geometry.QScaleNormSq | include/pose.hpp:88-91 | scaling by k multiplies the squared norm by k squared |
| Geometry.QAdd | include/pose.hpp:94-97 | the squared norm of a sum is the two squared norms plus twice their dot product |
| Geometry.Mul | include/pose.hpp:77-85 | the identity quaternion is a unit of the Hamilton product on both sides |
| Geometry.MulNormSq | include/pose.hpp:77-85 | the Hamilton product multiplies squared norms, so a product of unit quaternions is a unit quaternion |
| Geometry.Normalize | include/pose.hpp:61-74 | a norm of at most 1e-10 gives exactly the identity; otherwise scaling the result by the norm gives back the input, and the result has squared norm 1 |
| Geometry.NormalizeFixesUnit | include/pose.hpp:61-74 | normalising a unit quaternion leaves it unchanged |
| Geometry.NormalizeIdempotent | include/pose.hpp:61-74 | normalising twice equals normalising once |
| Geometry.DefaultQuaternionIsNormalized | include/pose.hpp:45-49 | the default quaternion (1, 0, 0, 0) is a unit that normalize keeps and that squares to itself |
| Interpolation.Clamp01 | src/a2_poseTimeInterpolation/traditional.cpp:61 | the clamped fraction lies in [0, 1], equals t inside it, and is 0 below and 1 above |
| Interpolation.LerpScalar | src/a2_poseTimeInterpolation/modern.cpp:83-85 | the lerped value has moved from a by the fraction t of the distance to b |
| Interpolation.Lerp | src/a2_poseTimeInterpolation/traditional.cpp:64 | the lerped position is p1 at t = 0 and p2 at t = 1, and its offset from p1 is the offset p2 - p1 scaled by t |
| Interpolation.LerpComponents | src/a2_poseTimeInterpolation/modern.cpp:88-92 | the componentwise lerp of the modern engine equals the vector lerp of the traditional one |
| Interpolation.ShortestArc | src/a2_poseTimeInterpolation/traditional.cpp:68-78 | after the sign flip the dot product is non-negative and is the dot product with the corrected q2; q2 is negated when the original dot product is negative and kept otherwise |
| Interpolation.QLerp | src/a2_poseTimeInterpolation/traditional.cpp:83-86 | the quaternion lerp is q1 at t = 0 and q2 at t = 1 |
| Interpolation.SlerpArc | src/a2_poseTimeInterpolation/traditional.cpp:90-98 | when sin(0) = 0, the SLERP formula gives q1 at t = 0 and q2 at t = 1 |
| Interpolation.Slerp | src/a2_poseTimeInterpolation/traditional.cpp:68-99 | in the near-parallel branch (corrected dot above 0.9995) the result is the normalised lerp and is a unit quaternion; a unit q1 comes back at t = 0; at t = 1 a unit q2 comes back sign-corrected to the short arc, so unchanged when the dot is non-negative |
| Interpolation.NormalizeInline | src/a2_poseTimeInterpolation/modern.cpp:124-132 | the inline normalisation agrees with normalize above norm 1e-10 and passes the quaternion through unchanged at or below it |
| Interpolation.SlerpInline | src/a2_poseTimeInterpolation/modern.cpp:103-149 | the a2 modern SLERP returns the unnormalised lerp when the near-parallel lerp has norm at most 1e-10, and in every other case equals the common SLERP |
| Interpolation.InterpolatePose | src/a2_poseTimeInterpolation/traditional.cpp:58-102 | the position moves from p1 toward p2 by the clamped fraction; t <= 0 keeps p1's position and t >= 1 gives p2's; t <= 0 returns p1 whole when its orientation is a unit quaternion; t >= 1 gives p2's orientation sign-corrected to the short arc when it is a unit quaternion, and p2 whole when the dot is also non-negative |
| Interpolation.InterpolatePoseNearParallelIsUnit | src/a2_poseTimeInterpolation/traditional.cpp:82-87 | on a near-parallel pair the interpolated orientation is a unit quaternion for every t |
| Interpolation.InterpolatePoseInline | src/a2_poseTimeInterpolation/modern.cpp:73-155 | the a2 modern pose interpolation has the common position, and equals the common interpolation whenever the inline normalisation does not pass a tiny lerp through |
| Interpolation.Fraction | src/a2_poseTimeInterpolation/traditional.cpp:121-123 | t1 + f (t2 - t1) is the target; f lies in [0, 1) for t1 <= target < t2, in (0, 1) strictly between them, and is 0 at t1 |
| Interpolation.AntipodalIdentity | src/a2_poseTimeInterpolation/traditional.cpp:68-87 | SLERP between (1, 0, 0, 0) and (-1, 0, 0, 0) is the identity at every t, in both SLERP versions |
| Interpolation.InlineNormalizationKeepsTinyQuaternion | src/a2_poseTimeInterpolation/modern.cpp:116-134 | for q1 = (1e-12, 0, 0, 0) and q2 = (1e12, 0, 0, 0) at t = 0, the common SLERP gives the identity but the a2 modern SLERP returns q1 |
| Interpolation.QLerpNormSq | src/a2_poseTimeInterpolation/traditional.cpp:83-86 | the squared norm of a quaternion lerp expands in (1 - t) and t |
| Interpolation.UnitQLerpNormSq | src/a2_poseTimeInterpolation/modern.cpp:116-122 | lerping two unit quaternions with a non-negative dot product, for t in [0, 1], gives squared norm at least 1/2 |
| Interpolation.UnitLerpNotDegenerate | src/a2_poseTimeInterpolation/modern.cpp:116-132 | for unit inputs the near-parallel lerp has norm above 1e-10, so the inline normalisation always divides |
| Interpolation.SlerpInlineAgreesOnUnits | src/a2_poseTimeInterpolation/modern.cpp:103-149 | for unit quaternions and t in [0, 1] the a2 modern SLERP equals the common SLERP |
| Interpolation.InterpolatePoseInlineAgreesOnUnits | src/a2_poseTimeInterpolation/modern.cpp:73-155 | with unit orientations the a2 modern pose interpolation equals the common one for every t |
| Timeline.FirstBracketUnique | src/a2_poseTimeInterpolation/traditional.cpp:41-45 | there is at most one first bracketing index |
| Timeline.StoredTimeIsFirstBracket | src/a2_poseTimeInterpolation/traditional.cpp:31-45 | on strictly increasing timestamps an interior stored time is bracketed first by its own index, so the scan does not short-circuit it |
| Timeline.StrictlyBetweenIsNoTimestamp | src/a2_poseTimeInterpolation/modern.cpp:55-60 | on sorted timestamps a time strictly between two neighbours is no stored time |
| Timeline.ScanFrom | src/a2_poseTimeInterpolation/traditional.cpp:41-45 | the scan finds the first i at or after its start with ts[i] <= target < ts[i+1], and finds nothing only when there is no such i |
| Timeline.ScanFindsBracket | src/a2_poseTimeInterpolation/traditional.cpp:41-48 | once the range check has passed and the target is below the last time, the scan succeeds, sorted or not, so the runtime_error is unreachable |
| Timeline.ScanLoop | src/a3_a2-PLUS/traditional.cpp:75-86 | the loop returns a first bracket, returns none exactly when there is no bracket, and agrees with the recursive scan |
| Timeline.LowerBoundFrom | src/a2_poseTimeInterpolation/modern.cpp:33-34 | the halving search returns a position inside its window |
| Timeline.LowerBoundFromStep | src/a2_poseTimeInterpolation/modern.cpp:33-34 | one halving step keeps a window (times left of it below the target, the time right of it not) and does not change the search result |
| Timeline.LowerBoundFromSplits | src/a2_poseTimeInterpolation/modern.cpp:33-34 | whatever the order of the times, the search ends on a split: the time just before the result is below the target and the time at it, if any, is not |
| Timeline.LowerBound | src/a3_a2-PLUS/modern.cpp:89-99 | lower_bound over the whole sequence returns a split point: the time before it is below the target and the time at it, if any, is not |
| Timeline.LowerBoundLoop | src/a2_poseTimeInterpolation/modern.cpp:33-34 | the (first, count) loop returns a split point, and on every input exactly the halving search's result |
| Timeline.SplitPointUnique | src/a2_poseTimeInterpolation/modern.cpp:33-34 | on sorted timestamps only one position splits them into below the target and not below it |
| Timeline.LowerBoundSorted | src/a2_poseTimeInterpolation/modern.cpp:33-34 | on sorted timestamps every time before lower_bound is below the target and every time from it on is not |
| Timeline.LowerBoundNotEnd | src/a2_poseTimeInterpolation/modern.cpp:27-34 | after the range check lower_bound never returns end |
| Timeline.LowerBoundIsFirstBracket | src/a2_poseTimeInterpolation/modern.cpp:55-60 | on sorted timestamps, an in-range target that is no stored time is first bracketed at lower_bound - 1 |
| PoseTimeTraditional.FindNeighborPoseIndices | src/a2_poseTimeInterpolation/traditional.cpp:18-49 | an empty input is rejected with invalid_argument, and exactly then; an out-of-range target with out_of_range, and exactly then; never runtime_error; the first time gives (0, 0), otherwise the last gives (n-1, n-1), and any other target gives the first bracketing (i, i+1) |
| PoseTimeTraditional.InterpolateTimedPose | src/a2_poseTimeInterpolation/traditional.cpp:110-130 | the same errors, an answer for every in-range target, the stored sample at either endpoint, and otherwise a pose stamped with the target and interpolated from the first bracket at a fraction in [0, 1) |
| PoseTimeTraditional.InterpolateAt | src/a2_poseTimeInterpolation/traditional.cpp:120-129 | the step is stamped with the target and is the interpolation from any first bracket at a fraction in [0, 1) |
| PoseTimeModern.FindNeighborPoseIndicesModern | src/a2_poseTimeInterpolation/modern.cpp:18-64 | the same errors, exactly when they apply; never nullopt; (idx, idx) only on a sample carrying the target, and (idx-1, idx) with ts[idx-1] < target < ts[idx] otherwise; on sorted input (idx, idx) exactly when the target is stored, with idx its first occurrence |
| PoseTimeModern.InterpolateTimedPoseModern | src/a2_poseTimeInterpolation/modern.cpp:163-188 | the same errors, an answer for every in-range target, and every answer stamped with the target |
| PoseTimeModern.InterpolateBetween | src/a2_poseTimeInterpolation/modern.cpp:179-187 | for a target strictly inside a gap, the step is the a2 modern interpolation at a fraction strictly inside (0, 1), stamped with the target |
| PoseTimeModern.ExactHitReturnsFirstSample | src/a2_poseTimeInterpolation/modern.cpp:37-52 | on sorted input, a target stored first at k gives back the sample at k unchanged |
| PoseTimeModern.OffSampleInterpolated | src/a2_poseTimeInterpolation/modern.cpp:55-60 | an in-range target that is no stored time is interpolated between two neighbours that strictly bracket it, whatever the order of the timestamps |
| Containers.ContainerTimes | src/a3_a2-PLUS/traditional.cpp:27-37 | the searched timestamps are the element times in iteration order: the own time_stamp for a vector or list, the key for a map |
| Containers.TimestampAt | src/a3_a2-PLUS/traditional.cpp:25-37 | getTimestamp reads a vector or list element's own time_stamp, and for a map the key of the entry whose mapped value getTimedPose returns |
| Containers.TimedPoseAt | src/a3_a2-PLUS/traditional.cpp:12-23 | getTimedPose returns the element itself for a vector or list and the mapped value (`->second`) for a map |
| Containers.KeyedBy | src/a3_a2-PLUS/traditional.cpp:251-254 | when the timestamps strictly increase, the map built from the samples holds each sample under its own time_stamp, in order |
| Containers.DispatchAgrees | src/a3_a2-PLUS/traditional.cpp:14-37 | a vector and a map keyed by the samples' own times read the same times and poses, and that map is well formed exactly when the times strictly increase |
| ContainerTraditional.FindNeighborPoseIterators | src/a3_a2-PLUS/traditional.cpp:49-87 | the a2 traditional finder's contract for any container: errors exactly when they apply, never runtime_error, endpoint self-pairs, otherwise the first bracketing (prev, curr) |
| ContainerTraditional.InterpolateTimedPose | src/a3_a2-PLUS/traditional.cpp:139-165 | the same errors, an answer for every in-range target, the stored TimedPose (for a map, the mapped value) at either endpoint, and otherwise a pose stamped with the target and interpolated from the first bracket at a fraction in [0, 1) |
| ContainerTraditional.InterpolateAt | src/a3_a2-PLUS/traditional.cpp:150-164 | the step is stamped with the target and is the interpolation from any first bracket, whose times differ, at a fraction in [0, 1) |
| ContainerModern.Abs | src/a3_a2-PLUS/modern.cpp:219 | the absolute value is non-negative and is x or -x |
| ContainerModern.FindNeighborPoseIteratorsModern | src/a3_a2-PLUS/modern.cpp:70-122 | errors exactly when they apply; never nullopt; (it, it) only on an element carrying the target, and on sorted input exactly when some element carries it, the first among them; otherwise (prev, it) with ts(prev) < target < ts(it) |
| ContainerModern.InterpolateTimedPoseModern | src/a3_a2-PLUS/modern.cpp:193-231 | the same errors, and an answer for every in-range target |
| ContainerModern.ExactHitReturnsFirstStored | src/a3_a2-PLUS/modern.cpp:204-209 | on sorted input, a target stored first at k gives back the TimedPose stored at k (for a map, the mapped value) |
| ContainerModern.OffSampleSteps | src/a3_a2-PLUS/modern.cpp:211-230 | an in-range target that is no stored time gets the guarded step between two neighbours that strictly bracket it, whatever the order of the keys |
| ContainerModern.InterpolateBetween | src/a3_a2-PLUS/modern.cpp:211-230 | for a target strictly inside a gap, a gap below 1e-9 gives the earlier stored TimedPose with its own time; a wider gap gives the interpolation at a fraction in (0, 1), stamped with the target |
| ContainerModern.AnyWithin | src/a3_a2-PLUS/modern.cpp:266-273 | true exactly when some listed time is within 1e-9 of the queried time |
| ContainerModern.IsOriginalTimestamp | src/a3_a2-PLUS/modern.cpp:259-275 | for a map, true exactly when the time is a key; for a vector or list, exactly when some stored time is within 1e-9 of it |
| Agreement.TraditionalFinderOnSequence | src/a3_a2-PLUS/traditional.cpp:49-87 | the traditional container finder on a vector is the a2 traditional finder |
| Agreement.TraditionalFinderOnKeyedMap | src/a3_a2-PLUS/traditional.cpp:14-37 | the traditional container finder gives a map keyed by the samples' times the vector's answer |
| Agreement.ModernFinderOnSequence | src/a3_a2-PLUS/modern.cpp:70-122 | the modern container finder on a vector is the a2 modern finder |
| Agreement.ModernFinderOnKeyedMap | src/a3_a2-PLUS/modern.cpp:34-59 | the modern container finder gives a keyed map the vector's answer |
| Agreement.ModernFinderReadsOnlyTimes | src/a3_a2-PLUS/modern.cpp:70-122 | two containers with the same timestamps in iteration order get the same answer from the modern container finder |
| Agreement.TraditionalEngineOnSequence | src/a3_a2-PLUS/traditional.cpp:139-165 | the traditional container engine on a vector is the a2 traditional engine |
| Agreement.TraditionalEngineOnKeyedMap | src/a3_a2-PLUS/traditional.cpp:196-266 | the traditional container engine gives a keyed map the vector's answers |
| Agreement.ModernEngineOnKeyedMap | src/a3_a2-PLUS/modern.cpp:193-231 | the modern container engine gives a keyed map the vector's answers |
| Agreement.BracketsAgreeOffSamples | src/a2_poseTimeInterpolation/modern.cpp:55-60 | on sorted input and off the stored times, lower_bound's bracket is the linear scan's |
| Agreement.ContainerBracketsAgreeOffSamples | src/a3_a2-PLUS/modern.cpp:110-116 | the same agreement for the two container finders |
| Agreement.ContainerEnginesAgreeOffSamples | src/a3_a2-PLUS/modern.cpp:219-230 | on sorted input whose gaps are at least 1e-9, off the stored times, both container engines return the same pose |
| Agreement.TraditionalContainerStep | src/a3_a2-PLUS/traditional.cpp:150-164 | a bracket (k, k+1) from the traditional container finder has increasing times, and the engine interpolates between them |
| Agreement.ModernContainerStep | src/a3_a2-PLUS/modern.cpp:211-230 | a bracket (k, k+1) from the modern container finder whose gap is at least 1e-9 is interpolated exactly as in the traditional engine |
| Agreement.VectorEnginesAgreeOffSamples | src/a2_poseTimeInterpolation/modern.cpp:163-188 | on sorted input with unit orientations, off the stored times, both vector engines return the same pose |
| Agreement.TraditionalVectorStep | src/a2_poseTimeInterpolation/traditional.cpp:120-129 | a bracket (k, k+1) from the a2 traditional finder has increasing times, and the engine interpolates between them at the target's fraction |
| Agreement.ModernVectorStep | src/a2_poseTimeInterpolation/modern.cpp:179-187 | a bracket (k, k+1) from the a2 modern finder strictly brackets the target, and the engine interpolates between them inline at the target's fraction |
| Agreement.TraditionalRoundTrip | src/a2_poseTimeInterpolation/traditional.cpp:110-130 | on strictly increasing input with unit orientations, querying a stored time gives back that sample |
| Agreement.ModernRoundTrip | src/a2_poseTimeInterpolation/modern.cpp:174-176 | on strictly increasing input, querying a stored time gives back that sample, whatever the orientations |
| Agreement.VectorPositionsAgreeOffSamples | src/a2_poseTimeInterpolation/modern.cpp:179-187 | on sorted input, off the stored times, both vector engines stamp the target and agree on the position, whatever the orientations |
| Agreement.SegmentPosition | src/a2_poseTimeInterpolation/traditional.cpp:120-129 | strictly between the sorted samples k and k+1, both vector engines place the position on the segment between them at the target's fraction of the gap |
| Agreement.TraditionalKeyedMapRoundTrip | src/a3_a2-PLUS/traditional.cpp:251-260 | a map keyed by strictly increasing sample times, with unit orientations, gives each sample back at its own time through the traditional container engine |
| Agreement.ModernKeyedMapRoundTrip | src/a3_a2-PLUS/modern.cpp:321-324 | the same round trip through the modern container engine, whatever the orientations |
| Demo.DemoTimes | src/a2_poseTimeInterpolation/traditional.cpp:137-155 | the demonstration trajectory is stamped 0, 1, 2, 3, 4, strictly increasing |
| Demo.DemoSegment | src/a2_poseTimeInterpolation/traditional.cpp:161 | a demonstration time between k and k+1 lies strictly inside that gap, at fraction target - k |
| Demo.UnitSegmentPosition | src/a2_poseTimeInterpolation/traditional.cpp:120-129 | on samples one second apart, both vector engines place a time between k and k+1 at the lerp by target - k |
| Demo.DemoPositionBetween | src/a2_poseTimeInterpolation/modern.cpp:192-204 | a demonstration time between samples k and k+1 is stamped with itself and lerped by target - k |
| Demo.DemoInterpolatedPositions | src/a2_poseTimeInterpolation/traditional.cpp:161 | the demonstration times 0.5, 1.75, 2.5 and 3.5 land at (0.5, 0, 0), (1, 0.75, 0), (0.5, 1, 0) and (0, 0.5, 0.5) in both vector engines |
| Demo.DemoSlerpAtStart | src/a2_poseTimeInterpolation/traditional.cpp:88-99 | SLERP from the sample at 1.0 toward the one at 2.0 at t = 0 takes the arc branch and gives back the first orientation |
| Demo.DemoStoredTime | src/a2_poseTimeInterpolation/traditional.cpp:161-173 | at the stored time 1.0 both vector engines return the stored sample |
| Demo.StoredSampleReturned | src/a2_poseTimeInterpolation/traditional.cpp:31-45 | on strictly increasing input, a stored time other than the last gives back its sample whenever SLERP at t = 0 gives back the sample's orientation |
| Demo.FirstSampleReturned | src/a2_poseTimeInterpolation/traditional.cpp:31-33 | the first stored time is answered by the endpoint short-circuit with the first sample |
| Demo.InteriorSampleInterpolated | src/a2_poseTimeInterpolation/traditional.cpp:116-129 | an interior stored time is interpolated from its own sample at fraction 0, keeping the position and SLERPing the orientation at t = 0 |
| Demo.StoredTimeBracket | src/a2_poseTimeInterpolation/traditional.cpp:41-45 | on strictly increasing input, the scan brackets an interior stored time by its own index and the next |
| Divergence.RepeatedLastTimestamp | src/a2_poseTimeInterpolation/traditional.cpp:31-38 | when the last time is stored twice, the traditional engine returns the last sample and the modern engine the one before it |
| Divergence.RepeatedTimestampsDiverge | src/a2_poseTimeInterpolation/modern.cpp:37-52 | a concrete three-sample input on which the two vector engines return different stored samples |
| Divergence.TinyGapReturnsEarlierSample | src/a3_a2-PLUS/modern.cpp:219-223 | inside a gap below 1e-9 the modern container engine returns the earlier sample with its own time, while the traditional one stamps the target |
| Divergence.TinyGapGuardReachable | src/a3_a2-PLUS/modern.cpp:219-223 | two samples 1e-10 apart, queried halfway, reach the guard |
| Divergence.ModernEnginesDifferOnVector | src/a3_a2-PLUS/modern.cpp:219-223 | on the vector with samples at 0 and 1e-10, queried at 5e-11, the a3 modern engine returns the first sample, while the a2 modern engine (src/a2_poseTimeInterpolation/modern.cpp has no gap guard) stamps the target |
| Divergence.UnsortedStoredTimeMissed | src/a2_poseTimeInterpolation/modern.cpp:33-52 | on the unsorted times 0, 2, 1, 3, lower_bound for the stored time 1 returns position 1, so the modern finder gives the bracket (0, 1) rather than the stored sample |
| Divergence.StoredTimesAreOriginal | src/a3_a2-PLUS/modern.cpp:259-275 | every stored time counts as original for either container shape |
| Divergence.ToleranceDiffersFromLookup | src/a3_a2-PLUS/modern.cpp:259-275 | a time 1e-10 from the only stored time is original for a vector but not for a map keyed the same way |
| PointDistance.DistanceTraditional | src/a1_pointDistance/traditional.cpp:5-17 | a dimension mismatch is rejected with invalid_argument, and exactly then; otherwise the result is the root of the sum of squared differences, non-negative, and equal to distance_modern's |
| PointDistance.Zeros | src/a1_pointDistance/modern.cpp:18 | the buffer starts as n zeros |
| PointDistance.SquaredDiffs | src/a1_pointDistance/modern.cpp:20-28 | the transform yields (p1[i] - p2[i])^2 for each coordinate, in order |
| PointDistance.DiffSqBuffer | src/a1_pointDistance/modern.cpp:18-28 | the buffer after the transform has length 2n, zeros in its first half, and the squared differences in its second |
| PointDistance.DistanceModern | src/a1_pointDistance/modern.cpp:10-32 | a dimension mismatch is rejected with invalid_argument, and exactly then; empty points give 0; otherwise the root of the sum of squared differences |
| PointDistance.ZeroPrefixIsNeutral | src/a1_pointDistance/modern.cpp:30-31 | the zero prefix contributes nothing to the accumulated sum |
| PointDistance.Accumulate | src/a1_pointDistance/modern.cpp:30-31 | std::accumulate from 0.0 is a left-to-right sum: 0 for no terms and the single term for one |
| PointDistance.AccumulateNonNegative | src/a1_pointDistance/modern.cpp:30-31 | accumulating non-negative terms gives a non-negative sum |
| PointDistance.AccumulateSquaredDiffs | src/a1_pointDistance/modern.cpp:30-31 | accumulating the squared differences gives the traditional loop's sum |
| PointDistance.SumSqNonNegative | src/a1_pointDistance/traditional.cpp:12-15 | the accumulated sum is never negative |
| PointDistance.SumSqSymmetric | src/a1_pointDistance/traditional.cpp:13-14 | swapping the points leaves the sum unchanged |
| PointDistance.SumSqSelf | src/a1_pointDistance/traditional.cpp:12-16 | a point's sum with itself is 0 |
| PointDistance.DistanceOfIdenticalAndSwapped | src/a1_pointDistance/modern.cpp:10-32 | a point is at distance 0 from itself, and the distance does not depend on the order of the points |
| PointDistance.DocumentedExamples | src/a1_pointDistance/modern.cpp:36-53 | the documented examples have sums 25, 27 and 64 and distances 5, about 5.19615 and 8, and a 2-D against 3-D call is rejected |

## Left out

- `std::sqrt`, `std::acos` and `std::sin` are not computed. They are fields of a `MathLib` parameter. `Lawful` states what the proofs need:
  - the square root is non-negative and squares back;
  - the sine of the arc cosine is non-zero on [0, 0.9995];
  - the sine of 0 is 0.
- Doubles are modelled as exact reals. Rounding, NaN, infinities and signed zero are not modelled, so the thresholds 1e-10, 1e-9 and 0.9995 are compared exactly.
- Containers.KeyedBy: models the map the demonstrations build only for strictly increasing timestamps. With a repeated timestamp, `poses_map[p.time_stamp] = p` keeps only the last sample under that key. The model has no function for that map, so the map agreement lemmas say nothing about such input.
- Interpolation.SlerpArc: does not state that the arc branch gives a unit quaternion between its endpoints, because that rests on trigonometric identities the uninterpreted `MathLib` does not provide.
- Interpolation.Slerp: states unit length only for the near-parallel branch, for the same reason.
- Interpolation.InterpolatePose: pins the orientation only at t <= 0 and t >= 1, and its unit length only for a near-parallel pair. For 0 < t < 1 on a wider arc it is the SLERP term, whose trigonometric values are left uninterpreted.
- PoseTimeModern.InterpolateTimedPoseModern: states the exact-hit result through `ExactHitReturnsFirstSample` for sorted input only. On unsorted input lower_bound can miss a stored time, which is then interpolated from the bracket it lands on.
- ContainerModern.InterpolateTimedPoseModern: states the exact-hit result through `ExactHitReturnsFirstStored` for sorted input only, for the same reason.
- Demo.DemoInterpolatedPositions: pins down the timestamps and positions of the demonstration results, not the interpolated orientations, because those involve `acos` and `sin`.
- The `main` drivers, `printInterpolatedPose` and the coloured console output are I/O. The demonstration data is modelled as `Demo.DemoPoses`, and the test times appear in the `Demo` lemmas.
- Exceptions are `Err` values of `Result`. `std::optional` is `Option`.
- C++ concepts, `static_assert` and iterator categories are replaced by the `Container` datatype. A vector and a list are both `Sequence`, so differences in their costs are not modelled.
- The `Pose` and `TimedPose` constructors are the datatype constructors, which store their arguments unchanged.
- The matrix-solver wrappers (`src/a0_solveMatrix`) and the parallel `for_each` examples (`src/a4_parallelization`) are not part of this model. The first are calls into a library, and the second is about threads.
