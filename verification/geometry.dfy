/**
 * The geometry layer: 3-vectors, quaternions, poses and time-stamped poses,
 * with the arithmetic the interpolation engine uses.
 */
module Geometry {
  import opened Transcendental

  /** Below this norm `Normalize` gives up and returns the identity. */
  const NormEpsilon: real := 1e-10

  datatype Vector3 = Vector3(x: real, y: real, z: real)

  /** w is the real part; x, y, z the i, j, k parts. */
  datatype Quaternion = Quaternion(w: real, x: real, y: real, z: real)

  datatype Pose = Pose(position: Vector3, orientation: Quaternion)

  /** A pose tagged with a time in seconds. */
  datatype TimedPose = TimedPose(timestamp: real, pose: Pose)

  /** The default-constructed values. */
  const ZeroVector: Vector3 := Vector3(0.0, 0.0, 0.0)
  const IdentityQuaternion: Quaternion := Quaternion(1.0, 0.0, 0.0, 0.0)
  const DefaultPose: Pose := Pose(ZeroVector, IdentityQuaternion)
  const DefaultTimedPose: TimedPose := TimedPose(0.0, DefaultPose)

  /** The timestamps of a sample sequence, in order. */
  function Times(poses: seq<TimedPose>): (ts: seq<real>)
    ensures |ts| == |poses|
    ensures forall i :: 0 <= i < |poses| ==> ts[i] == poses[i].timestamp
  {
    seq(|poses|, i requires 0 <= i < |poses| => poses[i].timestamp)
  }

  // ---------------------------------------------------------------- Vector3

  function Add(a: Vector3, b: Vector3): (r: Vector3)
    ensures Sub(r, b) == a
    ensures b == ZeroVector ==> r == a
  {
    Vector3(a.x + b.x, a.y + b.y, a.z + b.z)
  }

  /** Componentwise difference; Add undoes it (AddUndoesSub). */
  function Sub(a: Vector3, b: Vector3): (r: Vector3)
    ensures b == a ==> r == ZeroVector
    ensures b == ZeroVector ==> r == a
    ensures a == ZeroVector ==> r == Scale(b, -1.0)
  {
    Vector3(a.x - b.x, a.y - b.y, a.z - b.z)
  }

  /** Adding back what was subtracted restores the vector. */
  lemma AddUndoesSub(a: Vector3, b: Vector3)
    ensures Add(Sub(a, b), b) == a
  {
  }

  function Scale(v: Vector3, k: real): (r: Vector3)
    ensures k == 1.0 ==> r == v
    ensures k == 0.0 ==> r == ZeroVector
    ensures v == ZeroVector ==> r == ZeroVector
  {
    Vector3(v.x * k, v.y * k, v.z * k)
  }

  // ------------------------------------------------------------- Quaternion

  /** The 4-component dot product. */
  function Dot(p: Quaternion, q: Quaternion): real {
    p.w * q.w + p.x * q.x + p.y * q.y + p.z * q.z
  }

  /** The squared norm w^2 + x^2 + y^2 + z^2. */
  function NormSq(q: Quaternion): (r: real)
    ensures 0.0 <= r
  {
    Dot(q, q)
  }

  predicate IsUnit(q: Quaternion) {
    NormSq(q) == 1.0
  }

  /** Scalar multiplication, componentwise. */
  function QScale(q: Quaternion, k: real): (r: Quaternion)
    ensures k == 1.0 ==> r == q
    ensures k == 0.0 ==> r == Quaternion(0.0, 0.0, 0.0, 0.0)
  {
    Quaternion(q.w * k, q.x * k, q.y * k, q.z * k)
  }

  /** Scaling by k scales the squared norm by k^2. */
  lemma QScaleNormSq(q: Quaternion, k: real)
    ensures NormSq(QScale(q, k)) == k * k * NormSq(q)
  {
    var r := QScale(q, k);
    assert r.w * r.w == k * k * (q.w * q.w);
    assert r.x * r.x == k * k * (q.x * q.x);
    assert r.y * r.y == k * k * (q.y * q.y);
    assert r.z * r.z == k * k * (q.z * q.z);
  }

  /** Addition, componentwise. */
  function QAdd(p: Quaternion, q: Quaternion): (r: Quaternion)
    ensures Dot(r, r) == Dot(p, p) + 2.0 * Dot(p, q) + Dot(q, q)
  {
    Quaternion(p.w + q.w, p.x + q.x, p.y + q.y, p.z + q.z)
  }

  /** The Hamilton product; the identity is a unit on either side. */
  function Mul(p: Quaternion, q: Quaternion): (r: Quaternion)
    ensures p == IdentityQuaternion ==> r == q
    ensures q == IdentityQuaternion ==> r == p
  {
    Quaternion(
      p.w * q.w - p.x * q.x - p.y * q.y - p.z * q.z,
      p.w * q.x + p.x * q.w + p.y * q.z - p.z * q.y,
      p.w * q.y - p.x * q.z + p.y * q.w + p.z * q.x,
      p.w * q.z + p.x * q.y - p.y * q.x + p.z * q.w)
  }

  /**
   * The product multiplies squared norms, so unit quaternions are closed
   * under it.
   */
  lemma MulNormSq(p: Quaternion, q: Quaternion)
    ensures NormSq(Mul(p, q)) == NormSq(p) * NormSq(q)
    ensures IsUnit(p) && IsUnit(q) ==> IsUnit(Mul(p, q))
  {
    var r := Mul(p, q);
    FourSquare(p.w, p.x, p.y, p.z, q.w, q.x, q.y, q.z, NormSq(p), NormSq(q), NormSq(r));
  }

  /** Euler's four-square identity, in the component order of the Hamilton product. */
  lemma FourSquare(a1: real, a2: real, a3: real, a4: real, b1: real, b2: real, b3: real, b4: real,
                   na: real, nb: real, nc: real)
    requires na == a1 * a1 + a2 * a2 + a3 * a3 + a4 * a4
    requires nb == b1 * b1 + b2 * b2 + b3 * b3 + b4 * b4
    requires var c1, c2, c3, c4 :=
      a1 * b1 - a2 * b2 - a3 * b3 - a4 * b4,
      a1 * b2 + a2 * b1 + a3 * b4 - a4 * b3,
      a1 * b3 - a2 * b4 + a3 * b1 + a4 * b2,
      a1 * b4 + a2 * b3 - a3 * b2 + a4 * b1;
      nc == c1 * c1 + c2 * c2 + c3 * c3 + c4 * c4
    ensures nc == na * nb
  {
  }

  /**
   * Quaternion::normalize: divide every component by the norm, or fall back
   * to the identity when the norm is at most 1e-10.
   */
  function Normalize(m: MathLib, q: Quaternion): (r: Quaternion)
    ensures m.sqrt(NormSq(q)) <= NormEpsilon ==> r == IdentityQuaternion
    ensures m.sqrt(NormSq(q)) > NormEpsilon ==> QScale(r, m.sqrt(NormSq(q))) == q
    ensures Lawful(m) ==> IsUnit(r)
  {
    var n := m.sqrt(NormSq(q));
    if n > NormEpsilon then
      var r := Quaternion(q.w / n, q.x / n, q.y / n, q.z / n);
      assert r == QScale(q, 1.0 / n);
      assert Lawful(m) ==> IsUnit(r) by {
        if Lawful(m) {
          assert n * n == NormSq(q);
          QScaleNormSq(q, 1.0 / n);
          assert NormSq(r) == (1.0 / n) * (1.0 / n) * (n * n);
        }
      }
      r
    else
      IdentityQuaternion
  }

  /** Normalising a unit quaternion leaves it unchanged. */
  lemma NormalizeFixesUnit(m: MathLib, q: Quaternion)
    requires Lawful(m)
    requires IsUnit(q)
    ensures Normalize(m, q) == q
  {
    SqrtZeroOne(m);
    assert m.sqrt(NormSq(q)) == 1.0;
  }

  /** Normalising twice is the same as normalising once. */
  lemma NormalizeIdempotent(m: MathLib, q: Quaternion)
    requires Lawful(m)
    ensures Normalize(m, Normalize(m, q)) == Normalize(m, q)
  {
    NormalizeFixesUnit(m, Normalize(m, q));
  }

  /** The default quaternion is a unit quaternion that `Normalize` keeps. */
  lemma DefaultQuaternionIsNormalized(m: MathLib)
    requires Lawful(m)
    ensures IsUnit(IdentityQuaternion)
    ensures Normalize(m, IdentityQuaternion) == IdentityQuaternion
    ensures Mul(IdentityQuaternion, IdentityQuaternion) == IdentityQuaternion
  {
    NormalizeFixesUnit(m, IdentityQuaternion);
  }
}
