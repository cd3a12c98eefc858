/**
 * Opaque stand-ins for the three.js value types the animation core uses:
 * vectors of exact reals, and rotations as a free term algebra.  No matrix,
 * quaternion or Euler arithmetic is modelled; only the laws the core relies
 * on (interpolation endpoints, rounding of frame numbers) are stated.
 */
module Geometry {

  /** A position or direction (THREE.Vector3), with exact real components. */
  datatype Vec3 = Vec3(x: real, y: real, z: real)

  const Origin := Vec3(0.0, 0.0, 0.0)

  /** Multiplies every component by `s` (Vector3.multiplyScalar). */
  function Scale(v: Vec3, s: real): Vec3
  {
    Vec3(v.x * s, v.y * s, v.z * s)
  }

  /** Component-wise linear interpolation from `a` toward `b` (Vector3.lerp). */
  function LerpVec(a: Vec3, b: Vec3, alpha: real): (r: Vec3)
    ensures alpha == 0.0 ==> r == a
    ensures alpha == 1.0 ==> r == b
  {
    Vec3(a.x + (b.x - a.x) * alpha, a.y + (b.y - a.y) * alpha, a.z + (b.z - a.z) * alpha)
  }

  /**
   * A rotation (a rotation matrix, a quaternion or Z-Y-X Euler angles in the
   * source), kept symbolic: the identity, a rotation built from three Euler
   * angles, the inverse of a rotation, and a shortest-arc interpolation.
   */
  datatype Rotation =
    | Identity
    | Euler(x: real, y: real, z: real)
    | Inverse(of: Rotation)
    | Slerp(from: Rotation, to: Rotation, alpha: real)

  /**
   * Shortest-arc interpolation from `a` toward `b`.  The only laws assumed of
   * it are its endpoints: nothing of `b` at alpha 0, nothing of `a` at alpha 1.
   */
  function Blend(a: Rotation, b: Rotation, alpha: real): (r: Rotation)
    ensures alpha == 0.0 ==> r == a
    ensures alpha == 1.0 ==> r == b
    ensures r == a || r == b || r == Slerp(a, b, alpha)
  {
    if alpha == 0.0 then a else if alpha == 1.0 then b else Slerp(a, b, alpha)
  }

  /** The motion-capture unit, in meters. */
  const UnitScale: real := 0.056444

  /** Math.PI, to the precision of a double. */
  const Pi: real := 3.141592653589793

  /** Degrees to radians, as the source converts recorded angles. */
  function Radians(degrees: real): real
  {
    degrees * Pi / 180.0
  }

  /** Math.round: the nearest integer, halves rounded up. */
  function Round(x: real): (n: int)
    ensures n as real - 0.5 <= x < n as real + 0.5
  {
    (x + 0.5).Floor
  }

  /** True when `x` is a whole number. */
  predicate Integral(x: real)
  {
    x == x.Floor as real
  }

  lemma RoundIntegral(x: real)
    requires Integral(x)
    ensures Round(x) as real == x
  {
    var n, k := Round(x), x.Floor;
    assert k as real - 0.5 <= n as real < k as real + 0.5;
    assert k - 1 < n < k + 1;
  }
}
