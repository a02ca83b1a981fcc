/**
 * Pose interpolation between two samples: clamp the fraction, lerp the
 * position, SLERP the orientation along the shortest arc.
 */
module Interpolation {
  import opened Transcendental
  import opened Geometry

  /** Above this (sign-corrected) dot product SLERP falls back to a normalised lerp. */
  const NearParallel: real := 0.9995

  /** std::max(0.0, std::min(1.0, t)). */
  function Clamp01(t: real): (r: real)
    ensures 0.0 <= r <= 1.0
    ensures 0.0 <= t <= 1.0 ==> r == t
    ensures t < 0.0 ==> r == 0.0
    ensures 1.0 < t ==> r == 1.0
  {
    var upper := if 1.0 < t then 1.0 else t;
    if 0.0 < upper then upper else 0.0
  }

  /** The scalar lerp a*(1-t) + b*t. */
  function LerpScalar(a: real, b: real, t: real): (r: real)
    ensures r - a == t * (b - a)
  {
    a * (1.0 - t) + b * t
  }

  /** pose1.position * (1 - t) + pose2.position * t. */
  function Lerp(a: Vector3, b: Vector3, t: real): (r: Vector3)
    ensures t == 0.0 ==> r == a
    ensures t == 1.0 ==> r == b
    ensures Sub(r, a) == Scale(Sub(b, a), t)
  {
    Add(Scale(a, 1.0 - t), Scale(b, t))
  }

  /** Lerp works component by component. */
  lemma LerpComponents(a: Vector3, b: Vector3, t: real)
    ensures Lerp(a, b, t) == Vector3(LerpScalar(a.x, b.x, t), LerpScalar(a.y, b.y, t), LerpScalar(a.z, b.z, t))
  {
  }

  /** The second quaternion after the shortest-arc correction, and the corrected dot product. */
  datatype Arc = Arc(q2: Quaternion, dot: real)

  /** If q1 . q2 < 0, negate q2 (and the dot product) so the interpolation takes the short way round. */
  function ShortestArc(q1: Quaternion, q2: Quaternion): (r: Arc)
    ensures r.dot == Dot(q1, r.q2)
    ensures 0.0 <= r.dot
    ensures 0.0 <= Dot(q1, q2) ==> r.q2 == q2
    ensures Dot(q1, q2) < 0.0 ==> r.q2 == QScale(q2, -1.0)
  {
    var dot := Dot(q1, q2);
    if dot < 0.0 then Arc(Quaternion(-q2.w, -q2.x, -q2.y, -q2.z), -dot)
    else Arc(q2, dot)
  }

  /** The componentwise lerp q1*(1-t) + q2*t. */
  function QLerp(q1: Quaternion, q2: Quaternion, t: real): (r: Quaternion)
    ensures t == 0.0 ==> r == q1
    ensures t == 1.0 ==> r == q2
  {
    Quaternion(LerpScalar(q1.w, q2.w, t), LerpScalar(q1.x, q2.x, t),
               LerpScalar(q1.y, q2.y, t), LerpScalar(q1.z, q2.z, t))
  }

  /** The SLERP formula q1 * sin((1-t)a)/sin(a) + q2 * sin(t a)/sin(a) with a = acos(dot). */
  function SlerpArc(m: MathLib, q1: Quaternion, q2: Quaternion, dot: real, t: real): (r: Quaternion)
    requires m.sin(m.acos(dot)) != 0.0
    ensures m.sin(0.0) == 0.0 && t == 0.0 ==> r == q1
    ensures m.sin(0.0) == 0.0 && t == 1.0 ==> r == q2
  {
    var angle := m.acos(dot);
    var sinAngle := m.sin(angle);
    var factor1 := m.sin((1.0 - t) * angle) / sinAngle;
    var factor2 := m.sin(t * angle) / sinAngle;
    assert m.sin(0.0) == 0.0 && t == 0.0 ==> factor1 == 1.0 && factor2 == 0.0 by {
      if t == 0.0 { assert (1.0 - t) * angle == angle && t * angle == 0.0; }
    }
    assert m.sin(0.0) == 0.0 && t == 1.0 ==> factor1 == 0.0 && factor2 == 1.0 by {
      if t == 1.0 { assert (1.0 - t) * angle == 0.0 && t * angle == angle; }
    }
    QAdd(QScale(q1, factor1), QScale(q2, factor2))
  }

  /**
   * SLERP as in the traditional engines and the modern container engine: the
   * near-parallel branch normalises with `Normalize` (identity fallback).
   */
  function Slerp(m: MathLib, q1: Quaternion, q2: Quaternion, t: real): (r: Quaternion)
    requires Lawful(m)
    ensures ShortestArc(q1, q2).dot > NearParallel ==> IsUnit(r)
    ensures ShortestArc(q1, q2).dot > NearParallel ==> r == Normalize(m, QLerp(q1, ShortestArc(q1, q2).q2, t))
    ensures IsUnit(q1) && t == 0.0 ==> r == q1
    ensures IsUnit(q2) && t == 1.0 ==> r == ShortestArc(q1, q2).q2
    ensures IsUnit(q2) && 0.0 <= Dot(q1, q2) && t == 1.0 ==> r == q2
  {
    var arc := ShortestArc(q1, q2);
    assert IsUnit(q2) ==> IsUnit(arc.q2) by {
      QScaleNormSq(q2, -1.0);
    }
    if arc.dot > NearParallel then
      var r := Normalize(m, QLerp(q1, arc.q2, t));
      assert IsUnit(q1) && t == 0.0 ==> r == q1 by {
        if IsUnit(q1) && t == 0.0 { NormalizeFixesUnit(m, q1); }
      }
      assert IsUnit(q2) && t == 1.0 ==> r == arc.q2 by {
        if IsUnit(q2) && t == 1.0 { NormalizeFixesUnit(m, arc.q2); }
      }
      r
    else
      SlerpArc(m, q1, arc.q2, arc.dot, t)
  }

  /** The normalisation written inline in the a2 modern lambda: no identity fallback. */
  function NormalizeInline(m: MathLib, q: Quaternion): (r: Quaternion)
    ensures m.sqrt(NormSq(q)) > NormEpsilon ==> r == Normalize(m, q)
    ensures m.sqrt(NormSq(q)) <= NormEpsilon ==> r == q
  {
    var n := m.sqrt(NormSq(q));
    if n > NormEpsilon then Quaternion(q.w / n, q.x / n, q.y / n, q.z / n) else q
  }

  /** SLERP as in the a2 modern lambda, whose near-parallel branch uses `NormalizeInline`. */
  function SlerpInline(m: MathLib, q1: Quaternion, q2: Quaternion, t: real): (r: Quaternion)
    requires Lawful(m)
    ensures var arc := ShortestArc(q1, q2); var l := QLerp(q1, arc.q2, t);
      arc.dot > NearParallel && m.sqrt(NormSq(l)) <= NormEpsilon ==> r == l
    ensures var arc := ShortestArc(q1, q2); var l := QLerp(q1, arc.q2, t);
      !(arc.dot > NearParallel && m.sqrt(NormSq(l)) <= NormEpsilon) ==> r == Slerp(m, q1, q2, t)
  {
    var arc := ShortestArc(q1, q2);
    if arc.dot > NearParallel then NormalizeInline(m, QLerp(q1, arc.q2, t))
    else SlerpArc(m, q1, arc.q2, arc.dot, t)
  }

  /** interpolatePose: clamp t into [0, 1], lerp the position, SLERP the orientation. */
  function InterpolatePose(m: MathLib, p1: Pose, p2: Pose, t: real): (r: Pose)
    requires Lawful(m)
    ensures Sub(r.position, p1.position) == Scale(Sub(p2.position, p1.position), Clamp01(t))
    ensures t <= 0.0 ==> r.position == p1.position
    ensures 1.0 <= t ==> r.position == p2.position
    ensures t <= 0.0 && IsUnit(p1.orientation) ==> r == p1
    ensures 1.0 <= t && IsUnit(p2.orientation) ==>
      r.orientation == ShortestArc(p1.orientation, p2.orientation).q2
    ensures 1.0 <= t && IsUnit(p2.orientation) && 0.0 <= Dot(p1.orientation, p2.orientation) ==> r == p2
  {
    var c := Clamp01(t);
    Pose(Lerp(p1.position, p2.position, c), Slerp(m, p1.orientation, p2.orientation, c))
  }

  /** On a near-parallel pair the interpolated orientation is a unit quaternion, whatever t is. */
  lemma InterpolatePoseNearParallelIsUnit(m: MathLib, p1: Pose, p2: Pose, t: real)
    requires Lawful(m)
    requires ShortestArc(p1.orientation, p2.orientation).dot > NearParallel
    ensures IsUnit(InterpolatePose(m, p1, p2, t).orientation)
  {
  }

  /**
   * interpolatePoseModern of the a2 engine: the position is lerped component by
   * component and the orientation uses `SlerpInline`.
   */
  function InterpolatePoseInline(m: MathLib, p1: Pose, p2: Pose, t: real): (r: Pose)
    requires Lawful(m)
    ensures r.position == InterpolatePose(m, p1, p2, t).position
    ensures var c := Clamp01(t); var arc := ShortestArc(p1.orientation, p2.orientation);
      var l := QLerp(p1.orientation, arc.q2, c);
      !(arc.dot > NearParallel && m.sqrt(NormSq(l)) <= NormEpsilon) ==> r == InterpolatePose(m, p1, p2, t)
  {
    var c := Clamp01(t);
    var position := Vector3(LerpScalar(p1.position.x, p2.position.x, c),
                            LerpScalar(p1.position.y, p2.position.y, c),
                            LerpScalar(p1.position.z, p2.position.z, c));
    assert position == Lerp(p1.position, p2.position, c);
    Pose(position, SlerpInline(m, p1.orientation, p2.orientation, c))
  }

  /**
   * The interpolation fraction (target - t1) / (t2 - t1): the position of
   * target on the way from t1 to t2.
   */
  function Fraction(t1: real, t2: real, target: real): (f: real)
    requires t1 != t2
    ensures t1 + f * (t2 - t1) == target
    ensures t1 <= target < t2 ==> 0.0 <= f < 1.0
    ensures t1 < target < t2 ==> 0.0 < f < 1.0
    ensures target == t1 ==> f == 0.0
  {
    var f := (target - t1) / (t2 - t1);
    assert f * (t2 - t1) == target - t1;
    assert t1 <= target < t2 ==> 0.0 <= f < 1.0 by {
      if t1 <= target < t2 {
        QuotientBounds(target - t1, t2 - t1);
      }
    }
    f
  }

  /** A quotient of a non-negative number by a larger one lies in [0, 1). */
  lemma QuotientBounds(a: real, b: real)
    requires 0.0 <= a < b
    ensures 0.0 <= a / b < 1.0
  {
    var q, rest := a / b, (b - a) / b;
    assert q + rest == 1.0;
    assert rest > 0.0;
  }

  /**
   * Antipodal representations of the identity rotation interpolate to the
   * identity at every t: the dot product is negative, so the second operand
   * is negated first.
   */
  lemma AntipodalIdentity(m: MathLib, t: real)
    requires Lawful(m)
    ensures Slerp(m, IdentityQuaternion, Quaternion(-1.0, 0.0, 0.0, 0.0), t) == IdentityQuaternion
    ensures SlerpInline(m, IdentityQuaternion, Quaternion(-1.0, 0.0, 0.0, 0.0), t) == IdentityQuaternion
  {
    AntipodalSlerpIsNearParallel(m, t);
    QLerpSame(IdentityQuaternion, t);
    NormalizeFixesUnit(m, IdentityQuaternion);
    DefaultQuaternionIsNormalized(m);
    SqrtZeroOne(m);
    assert m.sqrt(NormSq(IdentityQuaternion)) == 1.0;
  }

  /** The antipodal pair takes the near-parallel branch once flipped. */
  lemma AntipodalSlerpIsNearParallel(m: MathLib, t: real)
    requires Lawful(m)
    ensures Slerp(m, IdentityQuaternion, Quaternion(-1.0, 0.0, 0.0, 0.0), t)
         == Normalize(m, QLerp(IdentityQuaternion, IdentityQuaternion, t))
  {
    AntipodalArc();
  }

  /** The identity and its negation lie on one arc once the second is flipped. */
  lemma AntipodalArc()
    ensures ShortestArc(IdentityQuaternion, Quaternion(-1.0, 0.0, 0.0, 0.0)) == Arc(IdentityQuaternion, 1.0)
  {
    assert Dot(IdentityQuaternion, Quaternion(-1.0, 0.0, 0.0, 0.0)) == -1.0;
  }

  /** Interpolating between a quaternion and itself stays put. */
  lemma QLerpSame(q: Quaternion, t: real)
    ensures QLerp(q, q, t) == q
  {
    assert LerpScalar(q.w, q.w, t) == q.w;
    assert LerpScalar(q.x, q.x, t) == q.x;
    assert LerpScalar(q.y, q.y, t) == q.y;
    assert LerpScalar(q.z, q.z, t) == q.z;
  }

  /**
   * The inline normalisation of the a2 modern SLERP has no identity
   * fallback: for a tiny q1 and a huge parallel q2 at t = 0 the lerped
   * quaternion has norm 1e-12, which `Normalize` replaces by the identity and
   * `NormalizeInline` passes through unchanged.
   */
  lemma InlineNormalizationKeepsTinyQuaternion(m: MathLib)
    requires Lawful(m)
    ensures var q1, q2 := Quaternion(1e-12, 0.0, 0.0, 0.0), Quaternion(1e12, 0.0, 0.0, 0.0);
      && ShortestArc(q1, q2).dot > NearParallel
      && Slerp(m, q1, q2, 0.0) == IdentityQuaternion
      && SlerpInline(m, q1, q2, 0.0) == q1
      && q1 != IdentityQuaternion
  {
    var q1 := Quaternion(1e-12, 0.0, 0.0, 0.0);
    assert NormSq(q1) == 1e-12 * 1e-12;
    SqrtOfSquare(m, 1e-12);
  }

  /** One lerped component squared, expanded in u = 1 - t and t. */
  lemma LerpScalarSquare(a: real, b: real, t: real, u: real)
    requires u == 1.0 - t
    ensures var l := LerpScalar(a, b, t);
      l * l == (u * u) * (a * a) + (2.0 * (u * t)) * (a * b) + (t * t) * (b * b)
  {
    var au, bt := a * u, b * t;
    assert LerpScalar(a, b, t) == au + bt;
    assert (au + bt) * (au + bt) == au * au + 2.0 * au * bt + bt * bt;
    assert au * au == (u * u) * (a * a);
    assert au * bt == (u * t) * (a * b);
    assert bt * bt == (t * t) * (b * b);
  }

  /** The squared norm of a quaternion lerp, expanded in u = 1 - t and t. */
  lemma QLerpNormSq(q1: Quaternion, q2: Quaternion, t: real, u: real)
    requires u == 1.0 - t
    ensures NormSq(QLerp(q1, q2, t)) == (u * u) * NormSq(q1) + (2.0 * (u * t)) * Dot(q1, q2) + (t * t) * NormSq(q2)
  {
    LerpScalarSquare(q1.w, q2.w, t, u);
    LerpScalarSquare(q1.x, q2.x, t, u);
    LerpScalarSquare(q1.y, q2.y, t, u);
    LerpScalarSquare(q1.z, q2.z, t, u);
    var l := QLerp(q1, q2, t);
    SumOfExpansions(l.w * l.w, l.x * l.x, l.y * l.y, l.z * l.z,
                    q1.w * q1.w, q1.x * q1.x, q1.y * q1.y, q1.z * q1.z,
                    q1.w * q2.w, q1.x * q2.x, q1.y * q2.y, q1.z * q2.z,
                    q2.w * q2.w, q2.x * q2.x, q2.y * q2.y, q2.z * q2.z,
                    u * u, 2.0 * (u * t), t * t);
  }

  /** Four expansions in the same three coefficients add up coefficientwise. */
  lemma SumOfExpansions(l1: real, l2: real, l3: real, l4: real,
                        s1: real, s2: real, s3: real, s4: real,
                        p1: real, p2: real, p3: real, p4: real,
                        r1: real, r2: real, r3: real, r4: real,
                        a: real, b: real, c: real)
    requires l1 == a * s1 + b * p1 + c * r1
    requires l2 == a * s2 + b * p2 + c * r2
    requires l3 == a * s3 + b * p3 + c * r3
    requires l4 == a * s4 + b * p4 + c * r4
    ensures l1 + l2 + l3 + l4 == a * (s1 + s2 + s3 + s4) + b * (p1 + p2 + p3 + p4) + c * (r1 + r2 + r3 + r4)
  {
  }

  /**
   * Lerping two unit quaternions with a non-negative dot product, for t in
   * [0, 1], never comes closer to zero than squared norm 1/2.
   */
  lemma UnitQLerpNormSq(q1: Quaternion, q2: Quaternion, t: real)
    requires IsUnit(q1) && IsUnit(q2) && 0.0 <= Dot(q1, q2)
    requires 0.0 <= t <= 1.0
    ensures 0.5 <= NormSq(QLerp(q1, q2, t))
  {
    var u := 1.0 - t;
    QLerpNormSq(q1, q2, t, u);
    UnitWeightsBound(q1, q2, t, u, NormSq(QLerp(q1, q2, t)));
  }

  /** The expansion of `QLerpNormSq` is at least 1/2 for unit quaternions with a non-negative dot product. */
  lemma UnitWeightsBound(q1: Quaternion, q2: Quaternion, t: real, u: real, x: real)
    requires IsUnit(q1) && IsUnit(q2) && 0.0 <= Dot(q1, q2)
    requires 0.0 <= t <= 1.0 && u == 1.0 - t
    requires x == (u * u) * NormSq(q1) + (2.0 * (u * t)) * Dot(q1, q2) + (t * t) * NormSq(q2)
    ensures 0.5 <= x
  {
    WeightsBound(x, u, t, Dot(q1, q2), NormSq(q1), NormSq(q2));
  }

  /** A product of non-negative reals is non-negative. */
  lemma NonNegativeProduct(a: real, b: real)
    requires 0.0 <= a && 0.0 <= b
    ensures 0.0 <= a * b
  {
  }

  /** x = (1-t)^2 n1 + 2(1-t)t d + t^2 n2 is at least 1/2 for t in [0, 1], d >= 0 and n1 = n2 = 1. */
  lemma WeightsBound(x: real, u: real, t: real, d: real, n1: real, n2: real)
    requires 0.0 <= t <= 1.0 && u == 1.0 - t && 0.0 <= d && n1 == 1.0 && n2 == 1.0
    requires x == (u * u) * n1 + (2.0 * (u * t)) * d + (t * t) * n2
    ensures 0.5 <= x
  {
    var uu, ut, tt := u * u, u * t, t * t;
    var diff := (u - t) * (u - t);
    NonNegativeProduct(u, t);
    NonNegativeProduct(2.0 * ut, d);
    assert diff == uu - 2.0 * ut + tt;
    assert (u + t) * (u + t) == uu + 2.0 * ut + tt;
    assert 0.0 <= diff;
  }

  /**
   * For unit inputs, the lerp the near-parallel branch normalises has norm
   * above 1e-10, so the inline normalisation never takes its pass-through path.
   */
  lemma UnitLerpNotDegenerate(m: MathLib, q1: Quaternion, q2: Quaternion, t: real)
    requires Lawful(m)
    requires IsUnit(q1) && IsUnit(q2)
    requires 0.0 <= t <= 1.0
    ensures var arc := ShortestArc(q1, q2);
      NormEpsilon < m.sqrt(NormSq(QLerp(q1, arc.q2, t)))
  {
    var arc := ShortestArc(q1, q2);
    QScaleNormSq(q2, -1.0);
    assert IsUnit(arc.q2);
    var x := NormSq(QLerp(q1, arc.q2, t));
    UnitQLerpNormSq(q1, arc.q2, t);
    if m.sqrt(x) <= NormEpsilon {
      SqrtBound(m, x, NormEpsilon);
    }
  }

  /** For unit inputs and t in [0, 1] the a2 modern SLERP is the common one. */
  lemma SlerpInlineAgreesOnUnits(m: MathLib, q1: Quaternion, q2: Quaternion, t: real)
    requires Lawful(m)
    requires IsUnit(q1) && IsUnit(q2)
    requires 0.0 <= t <= 1.0
    ensures SlerpInline(m, q1, q2, t) == Slerp(m, q1, q2, t)
  {
    UnitLerpNotDegenerate(m, q1, q2, t);
  }

  /** With unit orientations the a2 modern pose interpolation is the common one. */
  lemma InterpolatePoseInlineAgreesOnUnits(m: MathLib, p1: Pose, p2: Pose, t: real)
    requires Lawful(m)
    requires IsUnit(p1.orientation) && IsUnit(p2.orientation)
    ensures InterpolatePoseInline(m, p1, p2, t) == InterpolatePose(m, p1, p2, t)
  {
    UnitLerpNotDegenerate(m, p1.orientation, p2.orientation, Clamp01(t));
  }
}
