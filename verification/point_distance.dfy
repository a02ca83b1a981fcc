/** Euclidean distance between two points of the same dimension. */
module PointDistance {
  import opened Outcomes
  import opened Transcendental

  /** The sum of squared differences over all coordinates, accumulated front to back. */
  function SumSq(p1: seq<real>, p2: seq<real>): real
    requires |p1| == |p2|
  {
    if |p1| == 0 then 0.0
    else
      var n := |p1| - 1;
      SumSq(p1[..n], p2[..n]) + (p1[n] - p2[n]) * (p1[n] - p2[n])
  }

  /** distance_traditional: check the dimensions, accumulate the squared differences in a loop, take the root. */
  method DistanceTraditional(m: MathLib, p1: seq<real>, p2: seq<real>) returns (r: Result<real>)
    ensures |p1| != |p2| <==> r == Err(InvalidArgument)
    ensures r.Ok? ==> r.value == m.sqrt(SumSq(p1, p2))
    ensures Lawful(m) && r.Ok? ==> 0.0 <= r.value
    ensures Lawful(m) ==> r == DistanceModern(m, p1, p2)
  {
    if |p1| != |p2| {
      return Err(InvalidArgument);
    }
    var sum := 0.0;
    var i := 0;
    while i < |p1|
      invariant 0 <= i <= |p1|
      invariant sum == SumSq(p1[..i], p2[..i])
    {
      var diff := p1[i] - p2[i];
      assert p1[..i + 1][..i] == p1[..i] && p2[..i + 1][..i] == p2[..i];
      sum := sum + diff * diff;
      i := i + 1;
    }
    assert p1[..i] == p1 && p2[..i] == p2;
    SumSqNonNegative(p1, p2);
    if Lawful(m) && |p1| == 0 {
      SqrtZeroOne(m);
    }
    return Ok(m.sqrt(sum));
  }

  /** A run of n zeros: the buffer `std::vector<double> diff_sq(n)` starts as. */
  function Zeros(n: nat): (z: seq<real>)
    ensures |z| == n
    ensures forall i :: 0 <= i < n ==> z[i] == 0.0
  {
    seq(n, i => 0.0)
  }

  /** The squared differences std::transform produces, in coordinate order. */
  function SquaredDiffs(p1: seq<real>, p2: seq<real>): (d: seq<real>)
    requires |p1| == |p2|
    ensures |d| == |p1|
    ensures forall i :: 0 <= i < |p1| ==> d[i] == (p1[i] - p2[i]) * (p1[i] - p2[i])
  {
    seq(|p1|, i requires 0 <= i < |p1| => (p1[i] - p2[i]) * (p1[i] - p2[i]))
  }

  /**
   * diff_sq after std::transform appends through back_inserter: n zeros
   * followed by the n squared differences.
   */
  function DiffSqBuffer(p1: seq<real>, p2: seq<real>): (buf: seq<real>)
    requires |p1| == |p2|
    ensures |buf| == 2 * |p1|
    ensures forall i :: 0 <= i < |p1| ==> buf[i] == 0.0
    ensures buf[|p1|..] == SquaredDiffs(p1, p2)
  {
    Zeros(|p1|) + SquaredDiffs(p1, p2)
  }

  /** std::accumulate(xs.begin(), xs.end(), 0.0): a left-to-right sum. */
  function Accumulate(xs: seq<real>): (r: real)
    ensures |xs| == 0 ==> r == 0.0
    ensures |xs| == 1 ==> r == xs[0]
  {
    if |xs| == 0 then 0.0 else Accumulate(xs[..|xs| - 1]) + xs[|xs| - 1]
  }

  /** A sum of non-negative terms is non-negative. */
  lemma {:induction false} AccumulateNonNegative(xs: seq<real>)
    requires forall k :: 0 <= k < |xs| ==> 0.0 <= xs[k]
    ensures 0.0 <= Accumulate(xs)
  {
    if |xs| > 0 {
      AccumulateNonNegative(xs[..|xs| - 1]);
    }
  }

  /** distance_modern: dimension check, explicit 0 for empty points, then transform + accumulate. */
  function DistanceModern(m: MathLib, p1: seq<real>, p2: seq<real>): (r: Result<real>)
    ensures |p1| != |p2| <==> r == Err(InvalidArgument)
    ensures |p1| == |p2| == 0 ==> r == Ok(0.0)
    ensures 0 < |p1| == |p2| ==> r == Ok(m.sqrt(SumSq(p1, p2)))
  {
    if |p1| != |p2| then Err(InvalidArgument)
    else if |p1| == 0 then Ok(0.0)
    else
      ZeroPrefixIsNeutral(|p1|, SquaredDiffs(p1, p2));
      AccumulateSquaredDiffs(p1, p2);
      Ok(m.sqrt(Accumulate(DiffSqBuffer(p1, p2))))
  }

  /** The zero prefix of the buffer contributes nothing to the sum. */
  lemma {:induction false} ZeroPrefixIsNeutral(n: nat, xs: seq<real>)
    ensures Accumulate(Zeros(n) + xs) == Accumulate(xs)
    decreases |xs|, n
  {
    if |xs| == 0 {
      assert Zeros(n) + xs == Zeros(n);
      if n > 0 {
        assert Zeros(n)[..n - 1] == Zeros(n - 1);
        ZeroPrefixIsNeutral(n - 1, xs);
        assert Zeros(n - 1) + xs == Zeros(n - 1);
      }
    } else {
      var last := |xs| - 1;
      assert (Zeros(n) + xs)[..n + last] == Zeros(n) + xs[..last];
      ZeroPrefixIsNeutral(n, xs[..last]);
    }
  }

  /** Accumulating the squared differences gives the loop's sum. */
  lemma {:induction false} AccumulateSquaredDiffs(p1: seq<real>, p2: seq<real>)
    requires |p1| == |p2|
    ensures Accumulate(SquaredDiffs(p1, p2)) == SumSq(p1, p2)
    decreases |p1|
  {
    if |p1| > 0 {
      var n := |p1| - 1;
      forall i | 0 <= i < n
        ensures SquaredDiffs(p1, p2)[..n][i] == SquaredDiffs(p1[..n], p2[..n])[i]
      {
        assert p1[..n][i] == p1[i] && p2[..n][i] == p2[i];
      }
      assert SquaredDiffs(p1, p2)[..n] == SquaredDiffs(p1[..n], p2[..n]);
      AccumulateSquaredDiffs(p1[..n], p2[..n]);
    }
  }

  /** A sum of squares is never negative. */
  lemma {:induction false} SumSqNonNegative(p1: seq<real>, p2: seq<real>)
    requires |p1| == |p2|
    ensures 0.0 <= SumSq(p1, p2)
    decreases |p1|
  {
    if |p1| > 0 {
      var n := |p1| - 1;
      SumSqNonNegative(p1[..n], p2[..n]);
    }
  }

  /** Swapping the two points leaves the sum unchanged. */
  lemma {:induction false} SumSqSymmetric(p1: seq<real>, p2: seq<real>)
    requires |p1| == |p2|
    ensures SumSq(p1, p2) == SumSq(p2, p1)
    decreases |p1|
  {
    if |p1| > 0 {
      var n := |p1| - 1;
      SumSqSymmetric(p1[..n], p2[..n]);
      assert (p1[n] - p2[n]) * (p1[n] - p2[n]) == (p2[n] - p1[n]) * (p2[n] - p1[n]);
    }
  }

  /** A point is at distance 0 from itself. */
  lemma {:induction false} SumSqSelf(p: seq<real>)
    ensures SumSq(p, p) == 0.0
    decreases |p|
  {
    if |p| > 0 {
      SumSqSelf(p[..|p| - 1]);
    }
  }

  /** Both versions give 0 for identical points and agree when the points are swapped. */
  lemma DistanceOfIdenticalAndSwapped(m: MathLib, p1: seq<real>, p2: seq<real>)
    requires Lawful(m)
    ensures DistanceModern(m, p1, p1) == Ok(0.0)
    ensures DistanceModern(m, p1, p2) == DistanceModern(m, p2, p1)
  {
    SumSqSelf(p1);
    SqrtZeroOne(m);
    if |p1| == |p2| {
      SumSqSymmetric(p1, p2);
    }
  }

  /**
   * The documented examples: sums of squares 25, 27 and 64, distances 5,
   * about 5.19615 and 8, and a 2-D vs 3-D call that is rejected.
   */
  lemma DocumentedExamples(m: MathLib)
    requires Lawful(m)
    ensures SumSq([1.0, 2.0], [4.0, 6.0]) == 25.0
    ensures SumSq([1.0, 2.0, 3.0], [4.0, 5.0, 6.0]) == 27.0
    ensures SumSq([1.0, 2.0, 3.0, 4.0], [5.0, 6.0, 7.0, 8.0]) == 64.0
    ensures DistanceModern(m, [1.0, 2.0], [4.0, 6.0]) == Ok(5.0)
    ensures DistanceModern(m, [1.0, 2.0, 3.0, 4.0], [5.0, 6.0, 7.0, 8.0]) == Ok(8.0)
    ensures var d := DistanceModern(m, [1.0, 2.0, 3.0], [4.0, 5.0, 6.0]);
      d.Ok? && 5.19615 <= d.value < 5.19616
    ensures DistanceModern(m, [1.0, 2.0], [1.0, 2.0, 3.0]) == Err(InvalidArgument)
  {
    var a, b := [1.0, 2.0], [4.0, 6.0];
    assert a[..1] == [1.0] && b[..1] == [4.0];
    assert SumSq(a, b) == 25.0;
    var c, d := [1.0, 2.0, 3.0], [4.0, 5.0, 6.0];
    assert c[..2] == [1.0, 2.0] && d[..2] == [4.0, 5.0];
    assert c[..2][..1] == [1.0] && d[..2][..1] == [4.0];
    assert SumSq(c, d) == 27.0;
    var e, f := [1.0, 2.0, 3.0, 4.0], [5.0, 6.0, 7.0, 8.0];
    assert e[..3] == [1.0, 2.0, 3.0] && f[..3] == [5.0, 6.0, 7.0];
    assert e[..3][..2] == [1.0, 2.0] && f[..3][..2] == [5.0, 6.0];
    assert e[..3][..2][..1] == [1.0] && f[..3][..2][..1] == [5.0];
    assert SumSq([1.0, 2.0], [5.0, 6.0]) == 32.0;
    assert SumSq(e[..3], f[..3]) == 48.0;
    assert SumSq(e, f) == 64.0;
    SqrtOfSquare(m, 5.0);
    SqrtOfSquare(m, 8.0);
    var s := m.sqrt(27.0);
    assert 0.0 <= s && s * s == 27.0;
    if s < 5.19615 {
      SquareStrictlyMonotone(s, 5.19615);
    } else if 5.19616 <= s {
      SquareMonotone(5.19616, s);
    }
  }

  /** Squaring is monotone on the non-negative reals. */
  lemma SquareMonotone(a: real, b: real)
    requires 0.0 <= a <= b
    ensures a * a <= b * b
  {
    var aa, ab, bb := a * a, a * b, b * b;
    assert aa <= ab;
    assert ab <= bb;
  }
}
