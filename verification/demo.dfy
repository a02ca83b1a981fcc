/**
 * The five-sample trajectory every engine's demonstration interpolates, and
 * what the model says about the demonstration times 0, 0.5, 1.75, 2.5, 3.5
 * and 4. The orientations involve the arc cosine and sine, so only the
 * timestamps and positions of interpolated results are pinned down.
 */
module Demo {
  import opened Outcomes
  import opened Transcendental
  import opened Geometry
  import opened Interpolation
  import opened Timeline
  import PoseTimeTraditional
  import PoseTimeModern
  import Agreement

  const DemoPoses: seq<TimedPose> := [
    TimedPose(0.0, Pose(Vector3(0.0, 0.0, 0.0), Quaternion(1.0, 0.0, 0.0, 0.0))),
    TimedPose(1.0, Pose(Vector3(1.0, 0.0, 0.0), Quaternion(0.7071, 0.0, 0.7071, 0.0))),
    TimedPose(2.0, Pose(Vector3(1.0, 1.0, 0.0), Quaternion(0.0, 0.0, 1.0, 0.0))),
    TimedPose(3.0, Pose(Vector3(0.0, 1.0, 0.0), Quaternion(0.0, 0.0, 0.7071, 0.7071))),
    TimedPose(4.0, Pose(Vector3(0.0, 0.0, 1.0), Quaternion(0.0, 0.0, 0.0, 1.0)))
  ]

  /** The demonstration timestamps are 0, 1, 2, 3, 4. */
  lemma DemoTimes()
    ensures Times(DemoPoses) == [0.0, 1.0, 2.0, 3.0, 4.0]
    ensures StrictlyIncreasing(Times(DemoPoses))
  {
    assert Times(DemoPoses) == [0.0, 1.0, 2.0, 3.0, 4.0];
  }

  /** The sample at k is stamped k. */
  lemma DemoTimeAt(k: nat)
    requires k < 5
    ensures |DemoPoses| == 5 && DemoPoses[k].timestamp == k as real
  {
    if k == 0 {
    } else if k == 1 {
    } else if k == 2 {
    } else if k == 3 {
    } else {
    }
  }

  /** The facts about the demonstration timestamps that a time between k and k+1 needs. */
  lemma DemoSegment(k: nat, target: real)
    requires k < 4 && k as real < target < k as real + 1.0
    ensures Sorted(Times(DemoPoses)) && k + 1 < |DemoPoses|
    ensures DemoPoses[k].timestamp < target < DemoPoses[k + 1].timestamp
    ensures Fraction(DemoPoses[k].timestamp, DemoPoses[k + 1].timestamp, target) == target - k as real
  {
    DemoTimes();
    DemoTimeAt(k);
    DemoTimeAt(k + 1);
    assert Fraction(k as real, k as real + 1.0, target) == target - k as real;
  }

  /**
   * On any sorted trajectory whose samples k and k+1 are one second apart at
   * k and k+1, a target between them is stamped as asked and positioned at
   * the lerp by (target - k).
   */
  lemma UnitSegmentPosition(m: MathLib, poses: seq<TimedPose>, k: nat, target: real)
    requires Lawful(m) && Sorted(Times(poses)) && k + 1 < |poses|
    requires poses[k].timestamp < target < poses[k + 1].timestamp
    requires Fraction(poses[k].timestamp, poses[k + 1].timestamp, target) == target - k as real
    ensures var r := PoseTimeTraditional.InterpolateTimedPose(m, poses, target);
      && r.Ok? && r.value.timestamp == target
      && r.value.pose.position == Lerp(poses[k].pose.position, poses[k + 1].pose.position, target - k as real)
    ensures var r := PoseTimeModern.InterpolateTimedPoseModern(m, poses, target);
      && r.Ok? && r.value.timestamp == target
      && r.value.pose.position == Lerp(poses[k].pose.position, poses[k + 1].pose.position, target - k as real)
  {
    Agreement.SegmentPosition(m, poses, k, target);
  }

  /**
   * A demonstration time strictly between the samples at k and k+1: both
   * vector engines stamp the target and lerp the two sample positions by
   * (target - k).
   */
  lemma DemoPositionBetween(m: MathLib, k: nat, target: real)
    requires Lawful(m)
    requires k < 4 && k as real < target < k as real + 1.0
    ensures var r := PoseTimeTraditional.InterpolateTimedPose(m, DemoPoses, target);
      && r.Ok? && r.value.timestamp == target
      && r.value.pose.position == Lerp(DemoPoses[k].pose.position, DemoPoses[k + 1].pose.position, target - k as real)
    ensures var r := PoseTimeModern.InterpolateTimedPoseModern(m, DemoPoses, target);
      && r.Ok? && r.value.timestamp == target
      && r.value.pose.position == Lerp(DemoPoses[k].pose.position, DemoPoses[k + 1].pose.position, target - k as real)
  {
    DemoSegment(k, target);
    UnitSegmentPosition(m, DemoPoses, k, target);
  }

  /**
   * The demonstration time `target` between the samples at k and k+1 lands
   * at `expected`, whose components lerp the two sample positions.
   */
  lemma DemoPositionAt(m: MathLib, k: nat, target: real, expected: Vector3)
    requires Lawful(m)
    requires k < 4 && k as real < target < k as real + 1.0
    requires var a, b, f := DemoPoses[k].pose.position, DemoPoses[k + 1].pose.position, target - k as real;
      expected == Vector3(LerpScalar(a.x, b.x, f), LerpScalar(a.y, b.y, f), LerpScalar(a.z, b.z, f))
    ensures PoseTimeTraditional.InterpolateTimedPose(m, DemoPoses, target).value.pose.position == expected
    ensures PoseTimeModern.InterpolateTimedPoseModern(m, DemoPoses, target).value.pose.position == expected
  {
    DemoSegment(k, target);
    UnitSegmentPositionAt(m, DemoPoses, k, target, expected);
  }

  /** UnitSegmentPosition with the lerp written out componentwise as `expected`. */
  lemma UnitSegmentPositionAt(m: MathLib, poses: seq<TimedPose>, k: nat, target: real, expected: Vector3)
    requires Lawful(m) && Sorted(Times(poses)) && k + 1 < |poses|
    requires poses[k].timestamp < target < poses[k + 1].timestamp
    requires Fraction(poses[k].timestamp, poses[k + 1].timestamp, target) == target - k as real
    requires var a, b, f := poses[k].pose.position, poses[k + 1].pose.position, target - k as real;
      expected == Vector3(LerpScalar(a.x, b.x, f), LerpScalar(a.y, b.y, f), LerpScalar(a.z, b.z, f))
    ensures PoseTimeTraditional.InterpolateTimedPose(m, poses, target).value.pose.position == expected
    ensures PoseTimeModern.InterpolateTimedPoseModern(m, poses, target).value.pose.position == expected
  {
    UnitSegmentPosition(m, poses, k, target);
    LerpComponents(poses[k].pose.position, poses[k + 1].pose.position, target - k as real);
  }

  /** The interpolated demonstration times and the positions they land at. */
  const DemoTargets: seq<real> := [0.5, 1.75, 2.5, 3.5]
  const DemoPositions: seq<Vector3> :=
    [Vector3(0.5, 0.0, 0.0), Vector3(1.0, 0.75, 0.0), Vector3(0.5, 1.0, 0.0), Vector3(0.0, 0.5, 0.5)]

  /** The positions printed for the demonstration times 0.5, 1.75, 2.5 and 3.5. */
  lemma DemoInterpolatedPositions(m: MathLib, i: nat)
    requires Lawful(m) && i < 4
    ensures PoseTimeTraditional.InterpolateTimedPose(m, DemoPoses, DemoTargets[i]).value.pose.position == DemoPositions[i]
    ensures PoseTimeModern.InterpolateTimedPoseModern(m, DemoPoses, DemoTargets[i]).value.pose.position == DemoPositions[i]
  {
    if i == 0 {
      DemoPositionAt(m, 0, 0.5, Vector3(0.5, 0.0, 0.0));
    } else if i == 1 {
      DemoPositionAt(m, 1, 1.75, Vector3(1.0, 0.75, 0.0));
    } else if i == 2 {
      DemoPositionAt(m, 2, 2.5, Vector3(0.5, 1.0, 0.0));
    } else {
      DemoPositionAt(m, 3, 3.5, Vector3(0.0, 0.5, 0.5));
    }
  }

  /**
   * The samples at 1.0 and 2.0 are more than a near-parallel pair apart, so
   * SLERP takes the arc branch, which at t = 0 gives the first orientation
   * back even though it is not exactly of unit length.
   */
  lemma DemoSlerpAtStart(m: MathLib)
    requires Lawful(m)
    ensures Slerp(m, DemoPoses[1].pose.orientation, DemoPoses[2].pose.orientation, 0.0)
         == DemoPoses[1].pose.orientation
  {
    var q1, q2 := DemoPoses[1].pose.orientation, DemoPoses[2].pose.orientation;
    assert Dot(q1, q2) == 0.7071;
  }

  /**
   * At the stored time 1.0 both vector engines return the stored sample: the
   * modern one by its exact-hit short-circuit, the traditional one by
   * interpolating from that sample with fraction 0.
   */
  lemma DemoStoredTime(m: MathLib)
    requires Lawful(m)
    ensures PoseTimeTraditional.InterpolateTimedPose(m, DemoPoses, 1.0) == Ok(DemoPoses[1])
    ensures PoseTimeModern.InterpolateTimedPoseModern(m, DemoPoses, 1.0) == Ok(DemoPoses[1])
  {
    DemoTimes();
    DemoTimeAt(1);
    DemoSlerpAtStart(m);
    StoredSampleReturned(m, DemoPoses, 1);
    Agreement.ModernRoundTrip(m, DemoPoses, 1);
  }

  /**
   * On strictly increasing timestamps, a stored time other than the last is
   * answered with the stored sample by the traditional vector engine,
   * provided SLERP from that sample at t = 0 gives its orientation back.
   */
  lemma StoredSampleReturned(m: MathLib, poses: seq<TimedPose>, k: nat)
    requires Lawful(m) && StrictlyIncreasing(Times(poses)) && k + 1 < |poses|
    requires Slerp(m, poses[k].pose.orientation, poses[k + 1].pose.orientation, 0.0) == poses[k].pose.orientation
    ensures PoseTimeTraditional.InterpolateTimedPose(m, poses, poses[k].timestamp) == Ok(poses[k])
  {
    if k == 0 {
      FirstSampleReturned(m, poses);
    } else {
      InteriorSampleInterpolated(m, poses, k);
    }
  }

  /** The first stored time is an endpoint hit. */
  lemma FirstSampleReturned(m: MathLib, poses: seq<TimedPose>)
    requires Lawful(m) && StrictlyIncreasing(Times(poses)) && 1 < |poses|
    ensures PoseTimeTraditional.InterpolateTimedPose(m, poses, poses[0].timestamp) == Ok(poses[0])
  {
    var ts := Times(poses);
    var target := poses[0].timestamp;
    assert ts[0] == target && ts[0] < ts[|ts| - 1];
    assert InRange(ts, target);
    assert PoseTimeTraditional.FindNeighborPoseIndices(poses, target) == Ok(Bracket(0, 0));
  }

  /**
   * An interior stored time is interpolated from its own sample with
   * fraction 0: the position is kept and the orientation is SLERP at t = 0.
   */
  lemma InteriorSampleInterpolated(m: MathLib, poses: seq<TimedPose>, k: nat)
    requires Lawful(m) && StrictlyIncreasing(Times(poses)) && 0 < k && k + 1 < |poses|
    ensures var s1, s2 := poses[k].pose, poses[k + 1].pose;
      PoseTimeTraditional.InterpolateTimedPose(m, poses, poses[k].timestamp)
        == Ok(TimedPose(poses[k].timestamp, Pose(s1.position, Slerp(m, s1.orientation, s2.orientation, 0.0))))
  {
    var target := poses[k].timestamp;
    StoredTimeBracket(poses, k);
    var f := Fraction(poses[k].timestamp, poses[k + 1].timestamp, target);
    assert f == 0.0 && Clamp01(f) == 0.0;
  }

  /**
   * On strictly increasing timestamps, the traditional finder brackets a
   * stored time strictly inside the range by its own index and the next.
   */
  lemma StoredTimeBracket(poses: seq<TimedPose>, k: nat)
    requires StrictlyIncreasing(Times(poses)) && 0 < k && k + 1 < |poses|
    ensures PoseTimeTraditional.FindNeighborPoseIndices(poses, poses[k].timestamp) == Ok(Bracket(k, k + 1))
  {
    var ts := Times(poses);
    var n := |poses|;
    var target := poses[k].timestamp;
    assert ts[0] < ts[k] && ts[k] < ts[n - 1];
    assert poses[0].timestamp != target && poses[n - 1].timestamp != target;
    StoredTimeIsFirstBracket(ts, k);
    var b := PoseTimeTraditional.FindNeighborPoseIndices(poses, target);
    assert b.Ok? && b.value.second == b.value.first + 1;
    FirstBracketUnique(ts, b.value.first, k, target);
  }
}
