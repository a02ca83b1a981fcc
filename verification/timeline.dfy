/**
 * The search layer shared by every engine variant. It works on the
 * timestamps of the samples in iteration order; a position in that sequence
 * plays the part of an index or an iterator.
 */
module Timeline {
  import opened Outcomes

  /** A pair of positions (idx1, idx2) or iterators (it1, it2). */
  datatype Bracket = Bracket(first: nat, second: nat)

  /** Timestamps non-decreasing in iteration order: what callers promise. */
  predicate Sorted(ts: seq<real>) {
    forall i, j :: 0 <= i <= j < |ts| ==> ts[i] <= ts[j]
  }

  /** Timestamps strictly increasing: what a std::map keyed by time guarantees. */
  predicate StrictlyIncreasing(ts: seq<real>) {
    forall i, j :: 0 <= i < j < |ts| ==> ts[i] < ts[j]
  }

  /** The range check every variant performs: front <= target <= back. */
  predicate InRange(ts: seq<real>, target: real) {
    0 < |ts| && ts[0] <= target <= ts[|ts| - 1]
  }

  /** Positions i and i+1 bracket the target: ts[i] <= target < ts[i+1]. */
  predicate IsBracket(ts: seq<real>, i: int, target: real) {
    0 <= i < |ts| - 1 && ts[i] <= target < ts[i + 1]
  }

  /** i is the first bracketing position. */
  predicate IsFirstBracket(ts: seq<real>, i: int, target: real) {
    IsBracket(ts, i, target) && forall k :: 0 <= k < i ==> !IsBracket(ts, k, target)
  }

  /** At most one position is the first bracket. */
  lemma FirstBracketUnique(ts: seq<real>, i: int, j: int, target: real)
    requires IsFirstBracket(ts, i, target) && IsFirstBracket(ts, j, target)
    ensures i == j
  {
  }

  /**
   * On strictly increasing timestamps, a stored time other than the last is
   * bracketed first by its own position.
   */
  lemma StoredTimeIsFirstBracket(ts: seq<real>, k: nat)
    requires StrictlyIncreasing(ts)
    requires k < |ts| - 1
    ensures IsFirstBracket(ts, k, ts[k])
  {
    forall j | 0 <= j < k
      ensures !IsBracket(ts, j, ts[k])
    {
      assert ts[j + 1] <= ts[k] by {
        if j + 1 < k { assert ts[j + 1] < ts[k]; }
      }
    }
  }

  /** On sorted timestamps, a target strictly between two neighbours is no timestamp. */
  lemma StrictlyBetweenIsNoTimestamp(ts: seq<real>, k: nat, target: real)
    requires Sorted(ts)
    requires k < |ts| - 1 && ts[k] < target < ts[k + 1]
    ensures forall j :: 0 <= j < |ts| ==> ts[j] != target
  {
    forall j | 0 <= j < |ts|
      ensures ts[j] != target
    {
      if j <= k {
        assert ts[j] <= ts[k];
      } else {
        assert ts[k + 1] <= ts[j];
      }
    }
  }

  // ------------------------------------------------------------ linear scan

  /**
   * The traditional loop `for i in [start, n-1): if ts[i] <= target < ts[i+1] return i`,
   * starting at `start`.
   */
  function ScanFrom(ts: seq<real>, target: real, start: nat): (r: Option<nat>)
    decreases |ts| - start
    ensures r.Some? ==> start <= r.value && IsBracket(ts, r.value, target)
    ensures r.Some? ==> forall k :: start <= k < r.value ==> !IsBracket(ts, k, target)
    ensures r.None? ==> forall k :: start <= k < |ts| - 1 ==> !IsBracket(ts, k, target)
  {
    if |ts| <= start + 1 then None
    else if ts[start] <= target && target < ts[start + 1] then Some(start)
    else ScanFrom(ts, target, start + 1)
  }

  /**
   * Once the scan starts at a position at or below the target and the last
   * timestamp is above it, it finds a bracket; no ordering of the timestamps
   * is needed.
   */
  lemma {:induction false} ScanFindsBracket(ts: seq<real>, target: real, start: nat)
    requires start < |ts|
    requires ts[start] <= target < ts[|ts| - 1]
    ensures ScanFrom(ts, target, start).Some?
    decreases |ts| - start
  {
    if target < ts[start + 1] {
    } else {
      ScanFindsBracket(ts, target, start + 1);
    }
  }

  /**
   * The scan as the loop the engines write: the first i in [0, n-1) with
   * ts[i] <= target < ts[i+1], or None when there is none.
   */
  method ScanLoop(ts: seq<real>, target: real) returns (r: Option<nat>)
    ensures r.Some? ==> IsFirstBracket(ts, r.value, target)
    ensures r.None? <==> forall k :: 0 <= k < |ts| - 1 ==> !IsBracket(ts, k, target)
    ensures r == ScanFrom(ts, target, 0)
  {
    var i := 0;
    while i + 1 < |ts|
      invariant 0 <= i && (i < |ts| || i == 0)
      invariant forall k :: 0 <= k < i ==> !IsBracket(ts, k, target)
      invariant ScanFrom(ts, target, i) == ScanFrom(ts, target, 0)
    {
      if ts[i] <= target && target < ts[i + 1] {
        return Some(i);
      }
      i := i + 1;
    }
    return None;
  }

  // ------------------------------------------------------------ lower_bound

  /**
   * The window [first, first + count) that std::lower_bound still searches:
   * everything left of it is below the target and the element just right of
   * it (if any) is not.
   */
  predicate Window(ts: seq<real>, target: real, first: nat, count: nat) {
    && first + count <= |ts|
    && (first == 0 || ts[first - 1] < target)
    && (first + count == |ts| || target <= ts[first + count])
  }

  /**
   * std::lower_bound's halving loop on [first, first + count): while count > 0,
   * probe the middle; if it is below the target, continue right of it,
   * otherwise keep the left half.
   */
  function LowerBoundFrom(ts: seq<real>, target: real, first: nat, count: nat): (lo: nat)
    requires Window(ts, target, first, count)
    decreases count
    ensures first <= lo <= first + count
  {
    if count == 0 then first
    else
      var step := count / 2;
      if ts[first + step] < target then
        LowerBoundFrom(ts, target, first + step + 1, count - (step + 1))
      else
        LowerBoundFrom(ts, target, first, step)
  }

  /** std::lower_bound over the whole sequence with comparator `ts < target`. */
  function LowerBound(ts: seq<real>, target: real): (lo: nat)
    ensures lo <= |ts|
    ensures lo == 0 || ts[lo - 1] < target
    ensures lo == |ts| || target <= ts[lo]
  {
    LowerBoundFromSplits(ts, target, 0, |ts|);
    LowerBoundFrom(ts, target, 0, |ts|)
  }

  /**
   * Whatever the order of the timestamps, the halving search ends on a local
   * split: the timestamp just before it is below the target and the one at
   * it (if any) is not.
   */
  lemma {:induction false} LowerBoundFromSplits(ts: seq<real>, target: real, first: nat, count: nat)
    requires Window(ts, target, first, count)
    decreases count
    ensures Window(ts, target, LowerBoundFrom(ts, target, first, count), 0)
  {
    if count > 0 {
      var step := count / 2;
      LowerBoundFromStep(ts, target, first, count, step);
      if ts[first + step] < target {
        LowerBoundFromSplits(ts, target, first + step + 1, count - (step + 1));
      } else {
        LowerBoundFromSplits(ts, target, first, step);
      }
    }
  }

  /** One halving step: the half kept is again a window, and the search result does not change. */
  lemma LowerBoundFromStep(ts: seq<real>, target: real, first: nat, count: nat, step: nat)
    requires Window(ts, target, first, count) && 0 < count && step == count / 2
    ensures step < count
    ensures ts[first + step] < target ==>
      && Window(ts, target, first + step + 1, count - (step + 1))
      && LowerBoundFrom(ts, target, first, count) == LowerBoundFrom(ts, target, first + step + 1, count - (step + 1))
    ensures target <= ts[first + step] ==>
      && Window(ts, target, first, step)
      && LowerBoundFrom(ts, target, first, count) == LowerBoundFrom(ts, target, first, step)
  {
    if ts[first + step] < target {
      assert Window(ts, target, first + step + 1, count - (step + 1));
    } else {
      assert Window(ts, target, first, step);
    }
  }

  /** std::lower_bound's loop as written: the same halving steps on (first, count). */
  method LowerBoundLoop(ts: seq<real>, target: real) returns (lo: nat)
    ensures lo <= |ts|
    ensures lo == 0 || ts[lo - 1] < target
    ensures lo == |ts| || target <= ts[lo]
    ensures lo == LowerBound(ts, target)
  {
    var first: nat, count: nat := 0, |ts|;
    while count > 0
      invariant Window(ts, target, first, count)
      invariant LowerBoundFrom(ts, target, first, count) == LowerBound(ts, target)
    {
      var step := count / 2;
      LowerBoundFromStep(ts, target, first, count, step);
      if ts[first + step] < target {
        first, count := first + step + 1, count - (step + 1);
      } else {
        count := step;
      }
    }
    return first;
  }

  /**
   * On sorted timestamps only one position splits them into "below the
   * target" and "not below it".
   */
  lemma SplitPointUnique(ts: seq<real>, target: real, a: nat, b: nat)
    requires Sorted(ts) && a <= |ts| && b <= |ts|
    requires a == 0 || ts[a - 1] < target
    requires a == |ts| || target <= ts[a]
    requires b == 0 || ts[b - 1] < target
    requires b == |ts| || target <= ts[b]
    ensures a == b
  {
  }

  /** On sorted timestamps lower_bound is the first position not below the target. */
  lemma LowerBoundSorted(ts: seq<real>, target: real)
    ensures Sorted(ts) ==> forall j :: 0 <= j < LowerBound(ts, target) ==> ts[j] < target
    ensures Sorted(ts) ==> forall j :: LowerBound(ts, target) <= j < |ts| ==> target <= ts[j]
  {
  }

  /** After the range check lower_bound never returns end. */
  lemma LowerBoundNotEnd(ts: seq<real>, target: real)
    requires InRange(ts, target)
    ensures LowerBound(ts, target) < |ts|
  {
  }

  /**
   * On sorted timestamps, a target strictly inside the range that is not a
   * timestamp is bracketed first at lower_bound - 1.
   */
  lemma LowerBoundIsFirstBracket(ts: seq<real>, target: real)
    requires Sorted(ts) && InRange(ts, target)
    requires forall k :: 0 <= k < |ts| ==> ts[k] != target
    ensures 0 < LowerBound(ts, target)
    ensures IsFirstBracket(ts, LowerBound(ts, target) - 1, target)
  {
    var lo := LowerBound(ts, target);
    LowerBoundSorted(ts, target);
    assert lo < |ts|;
    assert ts[0] != target;
    forall k | 0 <= k < lo - 1
      ensures !IsBracket(ts, k, target)
    {
      assert ts[k + 1] < target;
    }
  }
}
