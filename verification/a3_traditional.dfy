/**
 * The traditional templated engine: the same endpoint short-circuits and
 * linear scan as the vector engine, walking (prev, curr) iterator pairs over
 * any container.
 */
module ContainerTraditional {
  import opened Outcomes
  import opened Transcendental
  import opened Geometry
  import opened Interpolation
  import opened Timeline
  import opened Containers

  /**
   * findNeighborPoseIterators. An exact hit on the first or last timestamp
   * pairs that iterator with itself; otherwise the first adjacent (prev, curr)
   * with ts(prev) <= target < ts(curr). The runtime_error is unreachable.
   */
  function FindNeighborPoseIterators(c: Container, target: real): (r: Result<Bracket>)
    ensures Size(c) == 0 <==> r == Err(InvalidArgument)
    ensures 0 < Size(c) && !InRange(ContainerTimes(c), target) <==> r == Err(OutOfRange)
    ensures r != Err(RuntimeError)
    ensures r.Ok? ==> r.value.first <= r.value.second < Size(c)
    ensures r.Ok? && target == TimestampAt(c, 0) ==> r.value == Bracket(0, 0)
    ensures r.Ok? && target != TimestampAt(c, 0) && target == TimestampAt(c, Size(c) - 1) ==>
      r.value == Bracket(Size(c) - 1, Size(c) - 1)
    ensures r.Ok? && target != TimestampAt(c, 0) && target != TimestampAt(c, Size(c) - 1) ==>
      r.value.second == r.value.first + 1 && IsFirstBracket(ContainerTimes(c), r.value.first, target)
  {
    if Size(c) == 0 then Err(InvalidArgument)
    else
      var last := Size(c) - 1;
      if target < TimestampAt(c, 0) || target > TimestampAt(c, last) then Err(OutOfRange)
      else if target == TimestampAt(c, 0) then Ok(Bracket(0, 0))
      else if target == TimestampAt(c, last) then Ok(Bracket(last, last))
      else
        var ts := ContainerTimes(c);
        ScanFindsBracket(ts, target, 0);
        match ScanFrom(ts, target, 0)
        case Some(prev) => Ok(Bracket(prev, prev + 1))
        case None => Err(RuntimeError)
  }

  /**
   * interpolateTimedPose over a container. The same-iterator case returns the
   * stored TimedPose (for a map, the mapped value, whatever its own
   * time_stamp); otherwise the result is stamped with the target and
   * interpolated between the bracketing pair, whose key gap is positive.
   */
  function InterpolateTimedPose(m: MathLib, c: Container, target: real): (r: Result<TimedPose>)
    requires Lawful(m)
    ensures Size(c) == 0 ==> r == Err(InvalidArgument)
    ensures 0 < Size(c) && !InRange(ContainerTimes(c), target) ==> r == Err(OutOfRange)
    ensures InRange(ContainerTimes(c), target) ==> r.Ok?
    ensures r.Ok? && target == TimestampAt(c, 0) ==> r.value == TimedPoseAt(c, 0)
    ensures r.Ok? && target != TimestampAt(c, 0) && target == TimestampAt(c, Size(c) - 1) ==>
      r.value == TimedPoseAt(c, Size(c) - 1)
    ensures r.Ok? && target != TimestampAt(c, 0) && target != TimestampAt(c, Size(c) - 1) ==>
      r.value.timestamp == target &&
      forall i :: IsFirstBracket(ContainerTimes(c), i, target) ==> InterpolatedFrom(m, c, target, i, r.value.pose)
  {
    match FindNeighborPoseIterators(c, target)
    case Err(e) => Err(e)
    case Ok(b) =>
      assert FindNeighborPoseIterators(c, target) == Ok(b);
      if b.first == b.second then
        assert target == TimestampAt(c, 0) || target == TimestampAt(c, Size(c) - 1);
        Ok(TimedPoseAt(c, b.first))
      else
        assert target != TimestampAt(c, 0) && target != TimestampAt(c, Size(c) - 1);
        assert b.second == b.first + 1 && IsFirstBracket(ContainerTimes(c), b.first, target);
        Ok(InterpolateAt(m, c, target, b.first))
  }

  /**
   * The pose `p` is the interpolation between the entries at i and i+1 at
   * the target's fraction of their time gap, which lies in [0, 1).
   */
  predicate InterpolatedFrom(m: MathLib, c: Container, target: real, i: nat, p: Pose)
    requires Lawful(m) && IsFirstBracket(ContainerTimes(c), i, target)
  {
    var f := Fraction(TimestampAt(c, i), TimestampAt(c, i + 1), target);
    0.0 <= f < 1.0 && p == InterpolatePose(m, TimedPoseAt(c, i).pose, TimedPoseAt(c, i + 1).pose, f)
  }

  /**
   * The interpolation step between the entries at k and k+1 (it1 and its
   * successor), stamped with the target; any first bracket gives the same
   * pose.
   */
  function InterpolateAt(m: MathLib, c: Container, target: real, k: nat): (r: TimedPose)
    requires Lawful(m) && IsFirstBracket(ContainerTimes(c), k, target)
    ensures r.timestamp == target
    ensures forall i :: IsFirstBracket(ContainerTimes(c), i, target) ==> InterpolatedFrom(m, c, target, i, r.pose)
  {
    var p1 := TimedPoseAt(c, k);
    var p2 := TimedPoseAt(c, k + 1);
    var t := Fraction(TimestampAt(c, k), TimestampAt(c, k + 1), target);
    var r := TimedPose(target, InterpolatePose(m, p1.pose, p2.pose, t));
    assert InterpolatedFrom(m, c, target, k, r.pose);
    assert forall i :: IsFirstBracket(ContainerTimes(c), i, target) ==> i == k by {
      forall i | IsFirstBracket(ContainerTimes(c), i, target)
        ensures i == k
      {
        FirstBracketUnique(ContainerTimes(c), i, k, target);
      }
    }
    r
  }
}
