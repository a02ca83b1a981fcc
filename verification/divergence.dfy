/**
 * Where the engine variants part ways. Repeated timestamps make the
 * traditional and the modern engines return different stored samples, and
 * the modern container engine's near-zero-gap guard answers a target inside
 * a tiny gap with the earlier stored sample instead of an interpolated one.
 */
module Divergence {
  import opened Outcomes
  import opened Transcendental
  import opened Geometry
  import opened Interpolation
  import opened Timeline
  import opened Containers
  import PoseTimeTraditional
  import PoseTimeModern
  import ContainerTraditional
  import ContainerModern

  /**
   * When the last timestamp t is stored twice, at n-2 and n-1, and nothing
   * earlier carries it, the traditional engine's endpoint check returns the
   * last sample while the modern engine's lower_bound returns the one before.
   */
  lemma RepeatedLastTimestamp(m: MathLib, poses: seq<TimedPose>)
    requires Lawful(m)
    requires Sorted(Times(poses)) && 3 <= |poses|
    requires poses[|poses| - 2].timestamp == poses[|poses| - 1].timestamp
    requires poses[|poses| - 3].timestamp < poses[|poses| - 1].timestamp
    ensures var t := poses[|poses| - 1].timestamp;
      PoseTimeTraditional.InterpolateTimedPose(m, poses, t) == Ok(poses[|poses| - 1])
    ensures var t := poses[|poses| - 1].timestamp;
      PoseTimeModern.InterpolateTimedPoseModern(m, poses, t) == Ok(poses[|poses| - 2])
  {
    var ts := Times(poses);
    var n := |poses|;
    var t := ts[n - 1];
    assert ts[0] <= ts[n - 3];
    assert forall j :: 0 <= j < n - 2 ==> poses[j].timestamp != t by {
      forall j | 0 <= j < n - 2 ensures poses[j].timestamp != t {
        assert ts[j] <= ts[n - 3];
      }
    }
  }

  /** Three samples, the last two at time 1 with different positions. */
  lemma RepeatedTimestampsDiverge(m: MathLib)
    requires Lawful(m)
    ensures var a := TimedPose(0.0, DefaultPose);
      var b := TimedPose(1.0, Pose(Vector3(1.0, 0.0, 0.0), IdentityQuaternion));
      var c := TimedPose(1.0, Pose(Vector3(2.0, 0.0, 0.0), IdentityQuaternion));
      && PoseTimeTraditional.InterpolateTimedPose(m, [a, b, c], 1.0) == Ok(c)
      && PoseTimeModern.InterpolateTimedPoseModern(m, [a, b, c], 1.0) == Ok(b)
      && b != c
  {
    var a := TimedPose(0.0, DefaultPose);
    var b := TimedPose(1.0, Pose(Vector3(1.0, 0.0, 0.0), IdentityQuaternion));
    var c := TimedPose(1.0, Pose(Vector3(2.0, 0.0, 0.0), IdentityQuaternion));
    var poses := [a, b, c];
    assert Times(poses) == [0.0, 1.0, 1.0];
    RepeatedLastTimestamp(m, poses);
  }

  /**
   * Two stored samples less than 1e-9 apart and a target strictly between
   * them: the modern container engine returns the earlier stored sample
   * unchanged, the traditional one stamps the target time.
   */
  lemma TinyGapReturnsEarlierSample(m: MathLib, c: Container, target: real)
    requires Lawful(m) && Size(c) == 2
    requires TimestampAt(c, 0) < target < TimestampAt(c, 1)
    requires TimestampAt(c, 1) - TimestampAt(c, 0) < ContainerModern.GapEpsilon
    ensures ContainerModern.InterpolateTimedPoseModern(m, c, target) == Ok(TimedPoseAt(c, 0))
    ensures ContainerTraditional.InterpolateTimedPose(m, c, target).Ok?
    ensures ContainerTraditional.InterpolateTimedPose(m, c, target).value.timestamp == target
  {
    var ts := ContainerTimes(c);
    assert Sorted(ts);
    assert InRange(ts, target) && ts[0] != target && ts[1] != target;
    var f := ContainerModern.FindNeighborPoseIteratorsModern(c, target);
    assert f.Ok? && f.value.Some? && f.value.value.first != f.value.value.second;
    assert f.value.value == Bracket(0, 1);
    assert ContainerModern.InterpolateTimedPoseModern(m, c, target)
        == Ok(ContainerModern.InterpolateBetween(m, c, target, 0));
  }

  /** Two samples 1e-10 apart and the target halfway between reach the guard. */
  lemma TinyGapGuardReachable(m: MathLib, c: Container)
    requires Lawful(m)
    requires c == Sequence([TimedPose(0.0, DefaultPose), TimedPose(1e-10, DefaultPose)])
    ensures StrictlyIncreasing(ContainerTimes(c))
    ensures ContainerModern.InterpolateTimedPoseModern(m, c, 5e-11) == Ok(TimedPose(0.0, DefaultPose))
    ensures ContainerTraditional.InterpolateTimedPose(m, c, 5e-11).value.timestamp == 5e-11
  {
    assert Size(c) == 2;
    assert TimestampAt(c, 0) == 0.0;
    assert TimestampAt(c, 1) == 1e-10;
    assert StrictlyIncreasing(ContainerTimes(c));
    TinyGapReturnsEarlierSample(m, c, 5e-11);
  }

  /**
   * On a vector the two modern engines part ways as well: the same tiny gap
   * makes the container engine return the earlier sample, while the vector
   * engine, which has no gap guard, stamps the target.
   */
  lemma ModernEnginesDifferOnVector(m: MathLib, poses: seq<TimedPose>)
    requires Lawful(m)
    requires poses == [TimedPose(0.0, DefaultPose), TimedPose(1e-10, DefaultPose)]
    ensures ContainerModern.InterpolateTimedPoseModern(m, Sequence(poses), 5e-11) == Ok(TimedPose(0.0, DefaultPose))
    ensures PoseTimeModern.InterpolateTimedPoseModern(m, poses, 5e-11).Ok?
    ensures PoseTimeModern.InterpolateTimedPoseModern(m, poses, 5e-11).value.timestamp == 5e-11
  {
    var ts := Times(poses);
    assert ts[0] == 0.0 && ts[|ts| - 1] == 1e-10;
    var r := PoseTimeModern.InterpolateTimedPoseModern(m, poses, 5e-11);
    assert r.Ok? && r.value.timestamp == 5e-11;
    TinyGapGuardReachable(m, Sequence(poses));
  }

  /**
   * On unsorted timestamps lower_bound can step past a stored time: with
   * times 0, 2, 1, 3 and the stored target 1, the search lands between the
   * first two samples, so the modern vector engine interpolates there
   * instead of returning the sample stored at 1.
   */
  lemma UnsortedStoredTimeMissed(poses: seq<TimedPose>)
    requires |poses| == 4
    requires Times(poses) == [0.0, 2.0, 1.0, 3.0]
    ensures poses[2].timestamp == 1.0
    ensures LowerBound(Times(poses), 1.0) == 1
    ensures PoseTimeModern.FindNeighborPoseIndicesModern(poses, 1.0) == Ok(Some(Bracket(0, 1)))
  {
    var ts := Times(poses);
    assert ts[2] == 1.0;
    assert LowerBoundFrom(ts, 1.0, 0, 4) == LowerBoundFrom(ts, 1.0, 0, 2);
    assert LowerBoundFrom(ts, 1.0, 0, 2) == LowerBoundFrom(ts, 1.0, 0, 1);
    assert LowerBoundFrom(ts, 1.0, 0, 1) == LowerBoundFrom(ts, 1.0, 1, 0);
  }

  /**
   * isOriginalTimestamp: every stored time counts as original for either
   * container shape, and the vector tolerance and the exact map lookup
   * agree on stored times.
   */
  lemma StoredTimesAreOriginal(c: Container, k: nat)
    requires k < Size(c)
    ensures ContainerModern.IsOriginalTimestamp(c, TimestampAt(c, k))
  {
    assert ContainerModern.Abs(TimestampAt(c, k) - TimestampAt(c, k)) == 0.0;
  }

  /**
   * A time 1e-10 away from the only stored time is original for a vector
   * but not for a map keyed the same way.
   */
  lemma ToleranceDiffersFromLookup(samples: seq<TimedPose>)
    requires samples == [TimedPose(1.0, DefaultPose)]
    ensures ContainerModern.IsOriginalTimestamp(Sequence(samples), 1.0 + 1e-10)
    ensures !ContainerModern.IsOriginalTimestamp(OrderedMap(KeyedBy(samples)), 1.0 + 1e-10)
  {
    assert ContainerModern.Abs(TimestampAt(Sequence(samples), 0) - (1.0 + 1e-10)) < ContainerModern.MatchTolerance;
  }
}
