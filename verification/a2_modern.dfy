/**
 * The modern vector engine: std::lower_bound finds the first timestamp not
 * below the target; any exact hit short-circuits, otherwise the pair
 * (lower_bound - 1, lower_bound) brackets the target.
 */
module PoseTimeModern {
  import opened Outcomes
  import opened Transcendental
  import opened Geometry
  import opened Interpolation
  import opened Timeline

  /**
   * findNeighborPoseIndicesModern. An exact hit anywhere gives (idx, idx);
   * otherwise (idx - 1, idx) with ts[idx-1] < target < ts[idx]. The nullopt
   * at the end cannot be reached, sorted timestamps or not; on sorted
   * timestamps idx is the first sample carrying the target time.
   */
  function FindNeighborPoseIndicesModern(poses: seq<TimedPose>, target: real): (r: Result<Option<Bracket>>)
    ensures |poses| == 0 <==> r == Err(InvalidArgument)
    ensures 0 < |poses| && !InRange(Times(poses), target) <==> r == Err(OutOfRange)
    ensures r != Ok(None)
    ensures r.Ok? && r.value.Some? ==> r.value.value.first <= r.value.value.second < |poses|
    ensures r.Ok? && r.value.Some? && r.value.value.first == r.value.value.second ==>
      poses[r.value.value.first].timestamp == target
    ensures r.Ok? && r.value.Some? && r.value.value.first != r.value.value.second ==>
      r.value.value.second == r.value.value.first + 1 &&
      poses[r.value.value.first].timestamp < target < poses[r.value.value.second].timestamp
    ensures Sorted(Times(poses)) && r.Ok? && r.value.Some? ==>
      (r.value.value.first == r.value.value.second <==> exists k :: 0 <= k < |poses| && poses[k].timestamp == target)
    ensures Sorted(Times(poses)) && r.Ok? && r.value.Some? && r.value.value.first == r.value.value.second ==>
      forall k :: 0 <= k < r.value.value.first ==> poses[k].timestamp < target
  {
    var ts := Times(poses);
    if |poses| == 0 then Err(InvalidArgument)
    else if target < ts[0] || target > ts[|ts| - 1] then Err(OutOfRange)
    else
      var it := LowerBound(ts, target);
      LowerBoundSorted(ts, target);
      if it == 0 && ts[it] == target then Ok(Some(Bracket(it, it)))
      else if it == |ts| - 1 && ts[it] == target then Ok(Some(Bracket(it, it)))
      else if it != |ts| && ts[it] == target then Ok(Some(Bracket(it, it)))
      else if it != 0 then Ok(Some(Bracket(it - 1, it)))
      else Ok(None)
  }

  /**
   * interpolateTimedPoseModern. An exact hit returns the stored sample and
   * a bracketing pair goes through `InterpolateBetween`, so the result
   * always carries the target time. What it is on an exact hit and off the
   * stored times is stated by `ExactHitReturnsFirstSample` and
   * `OffSampleInterpolated`.
   */
  function InterpolateTimedPoseModern(m: MathLib, poses: seq<TimedPose>, target: real): (r: Result<TimedPose>)
    requires Lawful(m)
    ensures |poses| == 0 ==> r == Err(InvalidArgument)
    ensures 0 < |poses| && !InRange(Times(poses), target) ==> r == Err(OutOfRange)
    ensures InRange(Times(poses), target) ==> r.Ok?
    ensures r.Ok? ==> r.value.timestamp == target
  {
    match FindNeighborPoseIndicesModern(poses, target)
    case Err(e) => Err(e)
    case Ok(None) => Err(RuntimeError)
    case Ok(Some(b)) =>
      if b.first == b.second then Ok(poses[b.first])
      else Ok(InterpolateBetween(m, poses, target, b.first))
  }

  /**
   * `p` is the interpolation between the samples at i and i+1, at the
   * target's fraction of their time gap, which lies strictly inside (0, 1),
   * stamped with the target.
   */
  predicate InterpolatedInlineFrom(m: MathLib, poses: seq<TimedPose>, target: real, i: nat, p: TimedPose)
    requires Lawful(m) && i + 1 < |poses| && poses[i].timestamp < target < poses[i + 1].timestamp
  {
    var f := Fraction(poses[i].timestamp, poses[i + 1].timestamp, target);
    0.0 < f < 1.0 && p == TimedPose(target, InterpolatePoseInline(m, poses[i].pose, poses[i + 1].pose, f))
  }

  /** The step between the samples at k and k+1 (idx1 and idx2). */
  function InterpolateBetween(m: MathLib, poses: seq<TimedPose>, target: real, k: nat): (r: TimedPose)
    requires Lawful(m) && k + 1 < |poses| && poses[k].timestamp < target < poses[k + 1].timestamp
    ensures InterpolatedInlineFrom(m, poses, target, k, r)
  {
    var t := Fraction(poses[k].timestamp, poses[k + 1].timestamp, target);
    TimedPose(target, InterpolatePoseInline(m, poses[k].pose, poses[k + 1].pose, t))
  }

  /**
   * On sorted timestamps, a target stored at k and nowhere before k gets the
   * sample stored at k back unchanged.
   */
  lemma ExactHitReturnsFirstSample(m: MathLib, poses: seq<TimedPose>, target: real, k: nat)
    requires Lawful(m) && Sorted(Times(poses))
    requires k < |poses| && poses[k].timestamp == target
    requires forall j :: 0 <= j < k ==> poses[j].timestamp != target
    ensures InterpolateTimedPoseModern(m, poses, target) == Ok(poses[k])
  {
    var ts := Times(poses);
    assert ts[0] <= ts[k] <= ts[|ts| - 1];
  }

  /**
   * A target in range that is no stored time lies strictly between two
   * neighbouring samples and is interpolated between them. No ordering of
   * the timestamps is needed.
   */
  lemma OffSampleInterpolated(m: MathLib, poses: seq<TimedPose>, target: real)
    requires Lawful(m) && InRange(Times(poses), target)
    requires forall k :: 0 <= k < |poses| ==> poses[k].timestamp != target
    ensures InterpolateTimedPoseModern(m, poses, target).Ok?
    ensures exists i :: 0 <= i < |poses| - 1 && poses[i].timestamp < target < poses[i + 1].timestamp &&
                        InterpolatedInlineFrom(m, poses, target, i, InterpolateTimedPoseModern(m, poses, target).value)
  {
    var b := FindNeighborPoseIndicesModern(poses, target).value.value;
    var i := b.first;
    assert poses[i].timestamp != target;
    assert b.second == i + 1 && poses[i].timestamp < target < poses[i + 1].timestamp;
    var p := InterpolateBetween(m, poses, target, i);
    assert InterpolateTimedPoseModern(m, poses, target) == Ok(p);
    assert InterpolatedInlineFrom(m, poses, target, i, p);
  }
}
