/**
 * How the four interpolation engines relate: on a vector the a3 traditional
 * engine and both a3 finders coincide with their a2 counterparts (the two
 * modern engines differ by the 1e-9 gap guard), a map keyed by the samples'
 * own timestamps behaves like the vector, and on sorted input the
 * traditional scan and the modern lower_bound search agree wherever the
 * target is not itself a stored timestamp.
 */
module Agreement {
  import opened Outcomes
  import opened Transcendental
  import opened Geometry
  import opened Interpolation
  import opened Timeline
  import opened Containers
  import PoseTimeTraditional
  import PoseTimeModern
  import ContainerTraditional
  import ContainerModern

  /** The traditional container finder on a vector is the vector finder. */
  lemma TraditionalFinderOnSequence(samples: seq<TimedPose>, target: real)
    ensures ContainerTraditional.FindNeighborPoseIterators(Sequence(samples), target)
         == PoseTimeTraditional.FindNeighborPoseIndices(samples, target)
  {
    DispatchAgrees(samples);
    var c := Sequence(samples);
    assert ContainerTimes(c) == Times(samples);
    if 0 < |samples| {
      assert TimestampAt(c, 0) == samples[0].timestamp;
      assert TimestampAt(c, |samples| - 1) == samples[|samples| - 1].timestamp;
    }
  }

  /** A map keyed by each sample's time_stamp searches like the vector of samples. */
  lemma TraditionalFinderOnKeyedMap(samples: seq<TimedPose>, target: real)
    ensures ContainerTraditional.FindNeighborPoseIterators(OrderedMap(KeyedBy(samples)), target)
         == ContainerTraditional.FindNeighborPoseIterators(Sequence(samples), target)
  {
    DispatchAgrees(samples);
  }

  /** The modern container finder on a vector is the modern vector finder. */
  lemma ModernFinderOnSequence(samples: seq<TimedPose>, target: real)
    ensures ContainerModern.FindNeighborPoseIteratorsModern(Sequence(samples), target)
         == PoseTimeModern.FindNeighborPoseIndicesModern(samples, target)
  {
    DispatchAgrees(samples);
    var c := Sequence(samples);
    assert ContainerTimes(c) == Times(samples);
    if 0 < |samples| {
      assert TimestampAt(c, 0) == samples[0].timestamp;
      assert TimestampAt(c, |samples| - 1) == samples[|samples| - 1].timestamp;
    }
  }

  /** The modern container finder treats a keyed map like the vector of samples. */
  lemma ModernFinderOnKeyedMap(samples: seq<TimedPose>, target: real)
    ensures ContainerModern.FindNeighborPoseIteratorsModern(OrderedMap(KeyedBy(samples)), target)
         == ContainerModern.FindNeighborPoseIteratorsModern(Sequence(samples), target)
  {
    DispatchAgrees(samples);
    ModernFinderReadsOnlyTimes(OrderedMap(KeyedBy(samples)), Sequence(samples), target);
  }

  /** The modern container finder sees a container only through its timestamps. */
  lemma ModernFinderReadsOnlyTimes(c1: Container, c2: Container, target: real)
    requires ContainerTimes(c1) == ContainerTimes(c2)
    ensures ContainerModern.FindNeighborPoseIteratorsModern(c1, target)
         == ContainerModern.FindNeighborPoseIteratorsModern(c2, target)
  {
    assert Size(c1) == Size(c2);
  }

  /** The traditional container engine on a vector is the vector engine. */
  lemma TraditionalEngineOnSequence(m: MathLib, samples: seq<TimedPose>, target: real)
    requires Lawful(m)
    ensures ContainerTraditional.InterpolateTimedPose(m, Sequence(samples), target)
         == PoseTimeTraditional.InterpolateTimedPose(m, samples, target)
  {
    TraditionalFinderOnSequence(samples, target);
  }

  /** The traditional container engine gives a keyed map the answers it gives the vector. */
  lemma TraditionalEngineOnKeyedMap(m: MathLib, samples: seq<TimedPose>, target: real)
    requires Lawful(m)
    ensures ContainerTraditional.InterpolateTimedPose(m, OrderedMap(KeyedBy(samples)), target)
         == ContainerTraditional.InterpolateTimedPose(m, Sequence(samples), target)
  {
    DispatchAgrees(samples);
    TraditionalFinderOnKeyedMap(samples, target);
  }

  /** The modern container engine gives a keyed map the answers it gives the vector. */
  lemma ModernEngineOnKeyedMap(m: MathLib, samples: seq<TimedPose>, target: real)
    requires Lawful(m)
    ensures ContainerModern.InterpolateTimedPoseModern(m, OrderedMap(KeyedBy(samples)), target)
         == ContainerModern.InterpolateTimedPoseModern(m, Sequence(samples), target)
  {
    DispatchAgrees(samples);
    ModernFinderOnKeyedMap(samples, target);
  }

  /**
   * On sorted timestamps, a target strictly between stored times gets the
   * same bracket from the linear scan and from lower_bound.
   */
  lemma BracketsAgreeOffSamples(poses: seq<TimedPose>, target: real)
    requires Sorted(Times(poses)) && InRange(Times(poses), target)
    requires forall k :: 0 <= k < |poses| ==> poses[k].timestamp != target
    ensures PoseTimeTraditional.FindNeighborPoseIndices(poses, target).Ok?
    ensures PoseTimeModern.FindNeighborPoseIndicesModern(poses, target)
         == Ok(Some(PoseTimeTraditional.FindNeighborPoseIndices(poses, target).value))
  {
    var ts := Times(poses);
    var b := PoseTimeTraditional.FindNeighborPoseIndices(poses, target).value;
    assert ts[0] != target && ts[|ts| - 1] != target;
    LowerBoundIsFirstBracket(ts, target);
    FirstBracketUnique(ts, b.first, LowerBound(ts, target) - 1, target);
  }

  /** The container form of `BracketsAgreeOffSamples`. */
  lemma ContainerBracketsAgreeOffSamples(c: Container, target: real)
    requires Sorted(ContainerTimes(c)) && InRange(ContainerTimes(c), target)
    requires forall k :: 0 <= k < Size(c) ==> TimestampAt(c, k) != target
    ensures ContainerTraditional.FindNeighborPoseIterators(c, target).Ok?
    ensures ContainerModern.FindNeighborPoseIteratorsModern(c, target)
         == Ok(Some(ContainerTraditional.FindNeighborPoseIterators(c, target).value))
  {
    var ts := ContainerTimes(c);
    var b := ContainerTraditional.FindNeighborPoseIterators(c, target).value;
    assert ts[0] != target && ts[|ts| - 1] != target;
    LowerBoundIsFirstBracket(ts, target);
    FirstBracketUnique(ts, b.first, LowerBound(ts, target) - 1, target);
  }

  /** Adjacent stored times are at least `GapEpsilon` apart. */
  predicate GapsAtLeastEpsilon(c: Container) {
    forall i :: 0 <= i < Size(c) - 1 ==> ContainerModern.GapEpsilon <= TimestampAt(c, i + 1) - TimestampAt(c, i)
  }

  /**
   * Off the stored times of a sorted container whose gaps are not below
   * 1e-9, the modern container engine's extra guard never fires and both
   * container engines return the same interpolated pose.
   */
  lemma ContainerEnginesAgreeOffSamples(m: MathLib, c: Container, target: real)
    requires Lawful(m)
    requires Sorted(ContainerTimes(c)) && InRange(ContainerTimes(c), target)
    requires forall k :: 0 <= k < Size(c) ==> TimestampAt(c, k) != target
    requires GapsAtLeastEpsilon(c)
    ensures ContainerTraditional.InterpolateTimedPose(m, c, target).Ok?
    ensures ContainerModern.InterpolateTimedPoseModern(m, c, target)
         == ContainerTraditional.InterpolateTimedPose(m, c, target)
  {
    ContainerBracketsAgreeOffSamples(c, target);
    var b := ContainerTraditional.FindNeighborPoseIterators(c, target).value;
    var k := b.first;
    assert target != TimestampAt(c, 0) && target != TimestampAt(c, Size(c) - 1);
    assert b == Bracket(k, k + 1);
    assert ContainerModern.GapEpsilon <= TimestampAt(c, k + 1) - TimestampAt(c, k);
    TraditionalContainerStep(m, c, target, k);
    ModernContainerStep(m, c, target, k);
  }

  /** The pose both container engines interpolate between the entries at k and k+1. */
  function StepPose(m: MathLib, c: Container, target: real, k: nat): Pose
    requires Lawful(m) && k + 1 < Size(c) && TimestampAt(c, k) < TimestampAt(c, k + 1)
  {
    InterpolatePose(m, TimedPoseAt(c, k).pose, TimedPoseAt(c, k + 1).pose,
                    Fraction(TimestampAt(c, k), TimestampAt(c, k + 1), target))
  }

  /** When the traditional container finder returns (k, k+1), the engine interpolates between them. */
  lemma TraditionalContainerStep(m: MathLib, c: Container, target: real, k: nat)
    requires Lawful(m)
    requires ContainerTraditional.FindNeighborPoseIterators(c, target) == Ok(Bracket(k, k + 1))
    ensures k + 1 < Size(c) && TimestampAt(c, k) < TimestampAt(c, k + 1)
    ensures ContainerTraditional.InterpolateTimedPose(m, c, target) == Ok(TimedPose(target, StepPose(m, c, target, k)))
  {
    assert IsFirstBracket(ContainerTimes(c), k, target);
  }

  /**
   * When the modern container finder returns (k, k+1) and their keys are at
   * least 1e-9 apart, the engine interpolates between them.
   */
  lemma ModernContainerStep(m: MathLib, c: Container, target: real, k: nat)
    requires Lawful(m)
    requires ContainerModern.FindNeighborPoseIteratorsModern(c, target) == Ok(Some(Bracket(k, k + 1)))
    requires k + 1 < Size(c) && ContainerModern.GapEpsilon <= TimestampAt(c, k + 1) - TimestampAt(c, k)
    ensures ContainerModern.InterpolateTimedPoseModern(m, c, target) == Ok(TimedPose(target, StepPose(m, c, target, k)))
  {
    assert TimestampAt(c, k) < target < TimestampAt(c, k + 1);
    assert ContainerModern.InterpolateTimedPoseModern(m, c, target) == Ok(ContainerModern.InterpolateBetween(m, c, target, k));
    assert ContainerModern.SteppedFrom(m, c, target, k, ContainerModern.InterpolateBetween(m, c, target, k));
  }

  /** Every stored orientation is a unit quaternion. */
  predicate UnitOrientations(poses: seq<TimedPose>) {
    forall i :: 0 <= i < |poses| ==> IsUnit(poses[i].pose.orientation)
  }

  /**
   * Off the stored times of sorted samples with unit orientations, the
   * traditional and the modern vector engines return the same pose.
   */
  lemma VectorEnginesAgreeOffSamples(m: MathLib, poses: seq<TimedPose>, target: real)
    requires Lawful(m)
    requires Sorted(Times(poses)) && InRange(Times(poses), target)
    requires forall k :: 0 <= k < |poses| ==> poses[k].timestamp != target
    requires UnitOrientations(poses)
    ensures PoseTimeTraditional.InterpolateTimedPose(m, poses, target).Ok?
    ensures PoseTimeModern.InterpolateTimedPoseModern(m, poses, target)
         == PoseTimeTraditional.InterpolateTimedPose(m, poses, target)
  {
    BracketsAgreeOffSamples(poses, target);
    var b := PoseTimeTraditional.FindNeighborPoseIndices(poses, target).value;
    var k := b.first;
    assert target != poses[0].timestamp && target != poses[|poses| - 1].timestamp;
    assert b == Bracket(k, k + 1);
    TraditionalVectorStep(m, poses, target, k);
    ModernVectorStep(m, poses, target, k);
    var f := Fraction(poses[k].timestamp, poses[k + 1].timestamp, target);
    assert IsUnit(poses[k].pose.orientation) && IsUnit(poses[k + 1].pose.orientation);
    InterpolatePoseInlineAgreesOnUnits(m, poses[k].pose, poses[k + 1].pose, f);
  }

  /** When the a2 traditional finder returns (k, k+1), the engine interpolates between them. */
  lemma TraditionalVectorStep(m: MathLib, poses: seq<TimedPose>, target: real, k: nat)
    requires Lawful(m)
    requires PoseTimeTraditional.FindNeighborPoseIndices(poses, target) == Ok(Bracket(k, k + 1))
    ensures k + 1 < |poses| && poses[k].timestamp < poses[k + 1].timestamp
    ensures PoseTimeTraditional.InterpolateTimedPose(m, poses, target)
         == Ok(TimedPose(target, InterpolatePose(m, poses[k].pose, poses[k + 1].pose,
                                                 Fraction(poses[k].timestamp, poses[k + 1].timestamp, target))))
  {
    assert IsFirstBracket(Times(poses), k, target);
  }

  /** When the a2 modern finder returns (k, k+1), the engine interpolates between them inline. */
  lemma ModernVectorStep(m: MathLib, poses: seq<TimedPose>, target: real, k: nat)
    requires Lawful(m)
    requires PoseTimeModern.FindNeighborPoseIndicesModern(poses, target) == Ok(Some(Bracket(k, k + 1)))
    ensures k + 1 < |poses| && poses[k].timestamp < target < poses[k + 1].timestamp
    ensures PoseTimeModern.InterpolateTimedPoseModern(m, poses, target)
         == Ok(TimedPose(target, InterpolatePoseInline(m, poses[k].pose, poses[k + 1].pose,
                                                       Fraction(poses[k].timestamp, poses[k + 1].timestamp, target))))
  {
    var f := PoseTimeModern.FindNeighborPoseIndicesModern(poses, target);
    assert f.Ok? && f.value.Some? && f.value.value == Bracket(k, k + 1);
    assert k + 1 < |poses| && poses[k].timestamp < target < poses[k + 1].timestamp;
    assert PoseTimeModern.InterpolateTimedPoseModern(m, poses, target)
        == Ok(PoseTimeModern.InterpolateBetween(m, poses, target, k));
  }

  /**
   * Interpolating strictly increasing samples with unit orientations at a
   * stored time gives back that sample: at the ends by the short-circuit, in
   * the interior by interpolating with fraction 0.
   */
  lemma TraditionalRoundTrip(m: MathLib, poses: seq<TimedPose>, k: nat)
    requires Lawful(m)
    requires StrictlyIncreasing(Times(poses)) && UnitOrientations(poses)
    requires k < |poses|
    ensures PoseTimeTraditional.InterpolateTimedPose(m, poses, poses[k].timestamp) == Ok(poses[k])
  {
    var ts := Times(poses);
    var n := |poses|;
    var target := poses[k].timestamp;
    assert InRange(ts, target) by {
      assert ts[0] <= ts[k] by { if 0 < k { assert ts[0] < ts[k]; } }
      assert ts[k] <= ts[n - 1] by { if k < n - 1 { assert ts[k] < ts[n - 1]; } }
    }
    if 0 < k < n - 1 {
      assert ts[0] < target < ts[n - 1];
      StoredTimeIsFirstBracket(ts, k);
    } else if k == n - 1 && 0 < k {
      assert ts[0] < target;
    }
  }

  /** The modern vector engine gives back a stored sample of strictly increasing samples. */
  lemma ModernRoundTrip(m: MathLib, poses: seq<TimedPose>, k: nat)
    requires Lawful(m)
    requires StrictlyIncreasing(Times(poses))
    requires k < |poses|
    ensures PoseTimeModern.InterpolateTimedPoseModern(m, poses, poses[k].timestamp) == Ok(poses[k])
  {
    var ts := Times(poses);
    var n := |poses|;
    var target := poses[k].timestamp;
    assert InRange(ts, target) by {
      assert ts[0] <= ts[k] by { if 0 < k { assert ts[0] < ts[k]; } }
      assert ts[k] <= ts[n - 1] by { if k < n - 1 { assert ts[k] < ts[n - 1]; } }
    }
    assert forall j :: 0 <= j < k ==> poses[j].timestamp != target by {
      forall j | 0 <= j < k ensures poses[j].timestamp != target {
        assert ts[j] < ts[k];
      }
    }
    assert Sorted(ts) by {
      forall i, j | 0 <= i <= j < n ensures ts[i] <= ts[j] {
        if i < j { assert ts[i] < ts[j]; }
      }
    }
    PoseTimeModern.ExactHitReturnsFirstSample(m, poses, target, k);
  }

  /**
   * Off the stored times of sorted samples, whatever the orientations, the
   * two vector engines stamp the result alike and put it at the same position.
   */
  lemma VectorPositionsAgreeOffSamples(m: MathLib, poses: seq<TimedPose>, target: real)
    requires Lawful(m)
    requires Sorted(Times(poses)) && InRange(Times(poses), target)
    requires forall k :: 0 <= k < |poses| ==> poses[k].timestamp != target
    ensures PoseTimeTraditional.InterpolateTimedPose(m, poses, target).Ok?
    ensures PoseTimeModern.InterpolateTimedPoseModern(m, poses, target).Ok?
    ensures var a, b := PoseTimeTraditional.InterpolateTimedPose(m, poses, target).value,
                        PoseTimeModern.InterpolateTimedPoseModern(m, poses, target).value;
      a.timestamp == b.timestamp == target && a.pose.position == b.pose.position
  {
    BracketsAgreeOffSamples(poses, target);
  }

  /**
   * Strictly between the sorted samples at k and k+1, both vector engines
   * stamp the target time and put the position on the segment between the
   * two samples, at the fraction the target has covered of their gap.
   */
  lemma SegmentPosition(m: MathLib, poses: seq<TimedPose>, k: nat, target: real)
    requires Lawful(m) && Sorted(Times(poses))
    requires k + 1 < |poses| && poses[k].timestamp < target < poses[k + 1].timestamp
    ensures var r := PoseTimeTraditional.InterpolateTimedPose(m, poses, target);
      var f := Fraction(poses[k].timestamp, poses[k + 1].timestamp, target);
      r.Ok? && r.value.timestamp == target && r.value.pose.position == Lerp(poses[k].pose.position, poses[k + 1].pose.position, f)
    ensures var r := PoseTimeModern.InterpolateTimedPoseModern(m, poses, target);
      var f := Fraction(poses[k].timestamp, poses[k + 1].timestamp, target);
      r.Ok? && r.value.timestamp == target && r.value.pose.position == Lerp(poses[k].pose.position, poses[k + 1].pose.position, f)
  {
    var ts := Times(poses);
    StrictlyBetweenIsNoTimestamp(ts, k, target);
    assert IsFirstBracket(ts, k, target) by {
      forall j | 0 <= j < k ensures !IsBracket(ts, j, target) {
        assert ts[j + 1] <= ts[k];
      }
    }
    assert InRange(ts, target) by {
      assert ts[0] <= ts[k] && ts[k + 1] <= ts[|ts| - 1];
    }
    VectorPositionsAgreeOffSamples(m, poses, target);
  }

  /**
   * A std::map keyed by strictly increasing sample times, queried at a
   * stored time, gives that sample back from the traditional container
   * engine.
   */
  lemma TraditionalKeyedMapRoundTrip(m: MathLib, samples: seq<TimedPose>, k: nat)
    requires Lawful(m)
    requires StrictlyIncreasing(Times(samples)) && UnitOrientations(samples)
    requires k < |samples|
    ensures ContainerTraditional.InterpolateTimedPose(m, OrderedMap(KeyedBy(samples)), samples[k].timestamp)
         == Ok(samples[k])
  {
    var target := samples[k].timestamp;
    TraditionalEngineOnKeyedMap(m, samples, target);
    TraditionalEngineOnSequence(m, samples, target);
    TraditionalRoundTrip(m, samples, k);
  }

  /**
   * The same for the modern container engine, whose exact-hit branch returns
   * the mapped value; unit orientations are not needed.
   */
  lemma ModernKeyedMapRoundTrip(m: MathLib, samples: seq<TimedPose>, k: nat)
    requires Lawful(m)
    requires StrictlyIncreasing(Times(samples))
    requires k < |samples|
    ensures ContainerModern.InterpolateTimedPoseModern(m, OrderedMap(KeyedBy(samples)), samples[k].timestamp)
         == Ok(samples[k])
  {
    var target := samples[k].timestamp;
    var c := OrderedMap(KeyedBy(samples));
    DispatchAgrees(samples);
    var ts := ContainerTimes(c);
    assert ts == Times(samples);
    var n := |samples|;
    assert InRange(ts, target) by {
      assert ts[0] <= ts[k] by { if 0 < k { assert ts[0] < ts[k]; } }
      assert ts[k] <= ts[n - 1] by { if k < n - 1 { assert ts[k] < ts[n - 1]; } }
    }
    assert Sorted(ts) by {
      forall i, j | 0 <= i <= j < n ensures ts[i] <= ts[j] {
        if i < j { assert ts[i] < ts[j]; }
      }
    }
    assert TimestampAt(c, k) == target && TimedPoseAt(c, k) == samples[k];
    assert forall j :: 0 <= j < k ==> TimestampAt(c, j) != target by {
      forall j | 0 <= j < k ensures TimestampAt(c, j) != target {
        assert ts[j] < ts[k];
      }
    }
    ContainerModern.ExactHitReturnsFirstStored(m, c, target, k);
  }
}
