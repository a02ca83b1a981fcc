/**
 * The modern templated engine: std::lower_bound with an element-kind
 * comparator over any container, any exact hit short-circuits, a re-checked
 * (prev, it) bracket otherwise, and a guard against a near-zero time gap.
 */
module ContainerModern {
  import opened Outcomes
  import opened Transcendental
  import opened Geometry
  import opened Interpolation
  import opened Timeline
  import opened Containers

  /** Below this key gap the bracket is not interpolated. */
  const GapEpsilon: real := 1e-9

  /** Below this distance isOriginalTimestamp treats a vector/list timestamp as a match. */
  const MatchTolerance: real := 1e-9

  /** std::fabs. */
  function Abs(x: real): (r: real)
    ensures 0.0 <= r && (r == x || r == -x)
  {
    if x < 0.0 then -x else x
  }

  /**
   * findNeighborPoseIteratorsModern. lower_bound never returns end once the
   * range check has passed, so reading its timestamp is safe. Any exact hit
   * gives (it, it); otherwise (prev, it) with ts(prev) <= target < ts(it).
   * The nullopt at the end cannot be reached, sorted timestamps or not.
   */
  function FindNeighborPoseIteratorsModern(c: Container, target: real): (r: Result<Option<Bracket>>)
    ensures Size(c) == 0 <==> r == Err(InvalidArgument)
    ensures 0 < Size(c) && !InRange(ContainerTimes(c), target) <==> r == Err(OutOfRange)
    ensures r != Ok(None)
    ensures r.Ok? && r.value.Some? ==> r.value.value.first <= r.value.value.second < Size(c)
    ensures r.Ok? && r.value.Some? && r.value.value.first == r.value.value.second ==>
      TimestampAt(c, r.value.value.first) == target
    ensures r.Ok? && r.value.Some? && r.value.value.first != r.value.value.second ==>
      r.value.value.second == r.value.value.first + 1 &&
      TimestampAt(c, r.value.value.first) < target < TimestampAt(c, r.value.value.second)
    ensures Sorted(ContainerTimes(c)) && r.Ok? && r.value.Some? ==>
      (r.value.value.first == r.value.value.second <==> exists k :: 0 <= k < Size(c) && TimestampAt(c, k) == target)
    ensures Sorted(ContainerTimes(c)) && r.Ok? && r.value.Some? && r.value.value.first == r.value.value.second ==>
      forall k :: 0 <= k < r.value.value.first ==> TimestampAt(c, k) < target
  {
    var ts := ContainerTimes(c);
    if Size(c) == 0 then Err(InvalidArgument)
    else if target < ts[0] || target > ts[|ts| - 1] then Err(OutOfRange)
    else
      var it := LowerBound(ts, target);
      LowerBoundSorted(ts, target);
      var foundTime := ts[it];
      assert foundTime == TimestampAt(c, it);
      if foundTime == target then Ok(Some(Bracket(it, it)))
      else if it != 0 && ts[it - 1] <= target && target < foundTime then
        assert ts[it - 1] == TimestampAt(c, it - 1);
        Ok(Some(Bracket(it - 1, it)))
      else Ok(None)
  }

  /**
   * interpolateTimedPoseModern over a container. nullopt becomes a
   * runtime_error, the same-iterator case returns the stored TimedPose, and
   * a bracketing pair goes through `InterpolateBetween`. What the result is
   * on an exact hit and off the stored times is stated by
   * `ExactHitReturnsFirstStored` and `OffSampleSteps`.
   */
  function InterpolateTimedPoseModern(m: MathLib, c: Container, target: real): (r: Result<TimedPose>)
    requires Lawful(m)
    ensures Size(c) == 0 ==> r == Err(InvalidArgument)
    ensures 0 < Size(c) && !InRange(ContainerTimes(c), target) ==> r == Err(OutOfRange)
    ensures InRange(ContainerTimes(c), target) ==> r.Ok?
  {
    match FindNeighborPoseIteratorsModern(c, target)
    case Err(e) => Err(e)
    case Ok(None) => Err(RuntimeError)
    case Ok(Some(b)) =>
      if b.first == b.second then Ok(TimedPoseAt(c, b.first))
      else Ok(InterpolateBetween(m, c, target, b.first))
  }

  /**
   * On sorted timestamps, a target stored at k and nowhere before k gets the
   * TimedPose stored at k back unchanged (for a map, the mapped value).
   */
  lemma ExactHitReturnsFirstStored(m: MathLib, c: Container, target: real, k: nat)
    requires Lawful(m) && Sorted(ContainerTimes(c))
    requires k < Size(c) && TimestampAt(c, k) == target
    requires forall j :: 0 <= j < k ==> TimestampAt(c, j) != target
    ensures InterpolateTimedPoseModern(m, c, target) == Ok(TimedPoseAt(c, k))
  {
    var ts := ContainerTimes(c);
    assert ts[0] <= ts[k] <= ts[|ts| - 1];
  }

  /**
   * A target in range that is no stored time lies strictly between the keys
   * of two neighbouring entries, and the result is what the guarded step
   * between them gives. No ordering of the keys is needed.
   */
  lemma OffSampleSteps(m: MathLib, c: Container, target: real)
    requires Lawful(m) && InRange(ContainerTimes(c), target)
    requires forall k :: 0 <= k < Size(c) ==> TimestampAt(c, k) != target
    ensures InterpolateTimedPoseModern(m, c, target).Ok?
    ensures exists i :: 0 <= i < Size(c) - 1 && TimestampAt(c, i) < target < TimestampAt(c, i + 1) &&
                        SteppedFrom(m, c, target, i, InterpolateTimedPoseModern(m, c, target).value)
  {
    var f := FindNeighborPoseIteratorsModern(c, target);
    assert f.Ok? && f.value.Some?;
    var b := f.value.value;
    var i := b.first;
    assert TimestampAt(c, i) != target;
    assert b.first != b.second;
    assert b.second == i + 1 && TimestampAt(c, i) < target < TimestampAt(c, i + 1);
    var p := InterpolateBetween(m, c, target, i);
    assert InterpolateTimedPoseModern(m, c, target) == Ok(p);
    assert SteppedFrom(m, c, target, i, p);
  }

  /**
   * `p` is what the step between the entries at i and i+1 gives for a target
   * strictly between their keys: the earlier stored TimedPose when the keys
   * are less than 1e-9 apart, otherwise the interpolation at the target's
   * fraction of the gap, which lies strictly inside (0, 1), stamped with
   * the target.
   */
  predicate SteppedFrom(m: MathLib, c: Container, target: real, i: nat, p: TimedPose)
    requires Lawful(m) && i + 1 < Size(c) && TimestampAt(c, i) < target < TimestampAt(c, i + 1)
  {
    var t1, t2 := TimestampAt(c, i), TimestampAt(c, i + 1);
    && (t2 - t1 < GapEpsilon ==> p == TimedPoseAt(c, i))
    && (GapEpsilon <= t2 - t1 ==>
          0.0 < Fraction(t1, t2, target) < 1.0 &&
          p == TimedPose(target, InterpolatePose(m, TimedPoseAt(c, i).pose, TimedPoseAt(c, i + 1).pose,
                                                 Fraction(t1, t2, target))))
  }

  /**
   * The step between the entries at k and k+1 (it1 and it2): a key gap
   * below 1e-9 returns the earlier stored TimedPose, any other gap an
   * interpolation stamped with the target.
   */
  function InterpolateBetween(m: MathLib, c: Container, target: real, k: nat): (r: TimedPose)
    requires Lawful(m) && k + 1 < Size(c)
    ensures TimestampAt(c, k) < target < TimestampAt(c, k + 1) ==> SteppedFrom(m, c, target, k, r)
  {
    var p1 := TimedPoseAt(c, k);
    var p2 := TimedPoseAt(c, k + 1);
    var t1 := TimestampAt(c, k);
    var t2 := TimestampAt(c, k + 1);
    assert t1 < target < t2 ==> Abs(t2 - t1) == t2 - t1;
    if Abs(t2 - t1) < GapEpsilon then
      assert t1 < target < t2 ==> t2 - t1 < GapEpsilon;
      p1
    else
      var t := Fraction(t1, t2, target);
      assert t1 < target < t2 ==> GapEpsilon <= t2 - t1 && 0.0 < t < 1.0;
      TimedPose(target, InterpolatePose(m, p1.pose, p2.pose, t))
  }

  /** std::any_of(.., |ts - time| < 1e-9) over a list of timestamps. */
  function AnyWithin(ts: seq<real>, time: real): (b: bool)
    ensures b <==> exists i :: 0 <= i < |ts| && Abs(ts[i] - time) < MatchTolerance
  {
    if |ts| == 0 then false
    else if Abs(ts[0] - time) < MatchTolerance then true
    else
      var b := AnyWithin(ts[1..], time);
      assert forall i :: 1 <= i < |ts| ==> ts[i] == ts[1..][i - 1];
      b
  }

  /**
   * isOriginalTimestamp: an exact key lookup (count(time) > 0) for a map,
   * a 1e-9 tolerance for a vector or list.
   */
  function IsOriginalTimestamp(c: Container, time: real): (b: bool)
    ensures c.OrderedMap? ==> (b <==> exists i :: 0 <= i < Size(c) && TimestampAt(c, i) == time)
    ensures c.Sequence? ==> (b <==> exists i :: 0 <= i < Size(c) && Abs(TimestampAt(c, i) - time) < MatchTolerance)
  {
    match c
    case OrderedMap(entries) => time in ContainerTimes(c)
    case Sequence(items) => AnyWithin(ContainerTimes(c), time)
  }
}
