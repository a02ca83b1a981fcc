/**
 * The C math library functions the engine calls (std::sqrt, std::acos, std::sin).
 * They are not modelled; a caller hands them in as a `MathLib`, and `Lawful`
 * states the few facts about them that the model relies on.
 */
module Transcendental {

  datatype MathLib = MathLib(sqrt: real -> real, acos: real -> real, sin: real -> real)

  /** Facts that hold of the real square root, arc cosine and sine. */
  ghost predicate Lawful(m: MathLib) {
    // the square root of a non-negative number is non-negative and squares back
    && (forall x: real :: 0.0 <= x ==> 0.0 <= m.sqrt(x) && m.sqrt(x) * m.sqrt(x) == x)
    // acos maps [0, 0.9995] into (0, pi/2], where sin does not vanish
    && (forall d: real :: 0.0 <= d <= 0.9995 ==> m.sin(m.acos(d)) != 0.0)
    && m.sin(0.0) == 0.0
  }

  /** The square root of a perfect square k*k (k >= 0) is k. */
  lemma SqrtOfSquare(m: MathLib, k: real)
    requires Lawful(m)
    requires 0.0 <= k
    ensures m.sqrt(k * k) == k
  {
    var s := m.sqrt(k * k);
    if s < k {
      SquareStrictlyMonotone(s, k);
    } else if k < s {
      SquareStrictlyMonotone(k, s);
    }
  }

  /** Squaring is strictly increasing on the non-negative reals. */
  lemma SquareStrictlyMonotone(a: real, b: real)
    requires 0.0 <= a < b
    ensures a * a < b * b
  {
    var aa, ab, bb := a * a, a * b, b * b;
    assert aa <= ab;
    assert ab < bb;
  }

  /** sqrt(0) == 0 and sqrt(1) == 1. */
  lemma SqrtZeroOne(m: MathLib)
    requires Lawful(m)
    ensures m.sqrt(0.0) == 0.0
    ensures m.sqrt(1.0) == 1.0
  {
    SqrtOfSquare(m, 0.0);
    SqrtOfSquare(m, 1.0);
  }

  /** A square root at most b (b >= 0) comes from a number at most b*b. */
  lemma SqrtBound(m: MathLib, x: real, b: real)
    requires Lawful(m)
    requires 0.0 <= x && 0.0 <= b
    requires m.sqrt(x) <= b
    ensures x <= b * b
  {
    var s := m.sqrt(x);
    if s < b {
      SquareStrictlyMonotone(s, b);
    }
  }
}
