/**
 * The traditional vector engine: endpoint short-circuits, then a linear scan
 * for the first bracketing pair of indices.
 */
module PoseTimeTraditional {
  import opened Outcomes
  import opened Transcendental
  import opened Geometry
  import opened Interpolation
  import opened Timeline

  /**
   * findNeighborPoseIndices. Only the first and last timestamps are
   * recognised as exact hits; any other target yields the first (i, i+1)
   * with ts[i] <= target < ts[i+1]. The runtime_error at the end cannot be
   * reached, sorted timestamps or not.
   */
  function FindNeighborPoseIndices(poses: seq<TimedPose>, target: real): (r: Result<Bracket>)
    ensures |poses| == 0 <==> r == Err(InvalidArgument)
    ensures 0 < |poses| && !InRange(Times(poses), target) <==> r == Err(OutOfRange)
    ensures r != Err(RuntimeError)
    ensures r.Ok? ==> r.value.first <= r.value.second < |poses|
    ensures r.Ok? && target == poses[0].timestamp ==> r.value == Bracket(0, 0)
    ensures r.Ok? && target != poses[0].timestamp && target == poses[|poses| - 1].timestamp ==>
      r.value == Bracket(|poses| - 1, |poses| - 1)
    ensures r.Ok? && target != poses[0].timestamp && target != poses[|poses| - 1].timestamp ==>
      r.value.second == r.value.first + 1 && IsFirstBracket(Times(poses), r.value.first, target)
  {
    var ts := Times(poses);
    if |poses| == 0 then Err(InvalidArgument)
    else if target < ts[0] || target > ts[|ts| - 1] then Err(OutOfRange)
    else if target == ts[0] then Ok(Bracket(0, 0))
    else if target == ts[|ts| - 1] then Ok(Bracket(|ts| - 1, |ts| - 1))
    else
      ScanFindsBracket(ts, target, 0);
      match ScanFrom(ts, target, 0)
      case Some(i) => Ok(Bracket(i, i + 1))
      case None => Err(RuntimeError)
  }

  /**
   * interpolateTimedPose. An endpoint hit returns the stored sample; any
   * other in-range target is interpolated between the first bracketing pair,
   * with a fraction in [0, 1), and stamped with the target time.
   */
  function InterpolateTimedPose(m: MathLib, poses: seq<TimedPose>, target: real): (r: Result<TimedPose>)
    requires Lawful(m)
    ensures |poses| == 0 ==> r == Err(InvalidArgument)
    ensures 0 < |poses| && !InRange(Times(poses), target) ==> r == Err(OutOfRange)
    ensures InRange(Times(poses), target) ==> r.Ok?
    ensures r.Ok? && target == poses[0].timestamp ==> r.value == poses[0]
    ensures r.Ok? && target != poses[0].timestamp && target == poses[|poses| - 1].timestamp ==>
      r.value == poses[|poses| - 1]
    ensures r.Ok? && target != poses[0].timestamp && target != poses[|poses| - 1].timestamp ==>
      r.value.timestamp == target &&
      forall i :: IsFirstBracket(Times(poses), i, target) ==> InterpolatedFrom(m, poses, target, i, r.value.pose)
  {
    match FindNeighborPoseIndices(poses, target)
    case Err(e) => Err(e)
    case Ok(b) =>
      assert FindNeighborPoseIndices(poses, target) == Ok(b);
      if b.first == b.second then
        assert target == poses[0].timestamp || target == poses[|poses| - 1].timestamp;
        Ok(poses[b.first])
      else
        assert target != poses[0].timestamp && target != poses[|poses| - 1].timestamp;
        assert b.second == b.first + 1 && IsFirstBracket(Times(poses), b.first, target);
        Ok(InterpolateAt(m, poses, target, b.first))
  }

  /**
   * The pose `p` is the interpolation between the samples at i and i+1 at
   * the target's fraction of their time gap, which lies in [0, 1).
   */
  predicate InterpolatedFrom(m: MathLib, poses: seq<TimedPose>, target: real, i: nat, p: Pose)
    requires Lawful(m) && IsFirstBracket(Times(poses), i, target)
  {
    var f := Fraction(poses[i].timestamp, poses[i + 1].timestamp, target);
    0.0 <= f < 1.0 && p == InterpolatePose(m, poses[i].pose, poses[i + 1].pose, f)
  }

  /**
   * The interpolation step between the samples at k and k+1 (idx1 and
   * idx2), stamped with the target; any first bracket gives the same pose.
   */
  function InterpolateAt(m: MathLib, poses: seq<TimedPose>, target: real, k: nat): (r: TimedPose)
    requires Lawful(m) && IsFirstBracket(Times(poses), k, target)
    ensures r.timestamp == target
    ensures forall i :: IsFirstBracket(Times(poses), i, target) ==> InterpolatedFrom(m, poses, target, i, r.pose)
  {
    var t := Fraction(poses[k].timestamp, poses[k + 1].timestamp, target);
    var r := TimedPose(target, InterpolatePose(m, poses[k].pose, poses[k + 1].pose, t));
    assert InterpolatedFrom(m, poses, target, k, r.pose);
    assert forall i :: IsFirstBracket(Times(poses), i, target) ==> i == k by {
      forall i | IsFirstBracket(Times(poses), i, target)
        ensures i == k
      {
        FirstBracketUnique(Times(poses), i, k, target);
      }
    }
    r
  }
}
