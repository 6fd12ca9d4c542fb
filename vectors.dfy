/** Three-dimensional vectors over the reals, shared by the shape, material
    and tracker models. Transcendental functions are not defined by Dafny, so
    a square root is passed in as a function value and constrained by IsSqrt. */
module Vectors {

  datatype Vec3 = Vec3(x: real, y: real, z: real)

  const Zero := Vec3(0.0, 0.0, 0.0)
  const YAxis := Vec3(0.0, 1.0, 0.0)

  function Add(a: Vec3, b: Vec3): Vec3 { Vec3(a.x + b.x, a.y + b.y, a.z + b.z) }
  function Sub(a: Vec3, b: Vec3): Vec3 { Vec3(a.x - b.x, a.y - b.y, a.z - b.z) }
  function Neg(a: Vec3): Vec3 { Vec3(-a.x, -a.y, -a.z) }
  function Scale(k: real, a: Vec3): Vec3 { Vec3(k * a.x, k * a.y, k * a.z) }
  function Dot(a: Vec3, b: Vec3): real { a.x * b.x + a.y * b.y + a.z * b.z }

  function Cross(a: Vec3, b: Vec3): Vec3 {
    Vec3(a.y * b.z - a.z * b.y, a.z * b.x - a.x * b.z, a.x * b.y - a.y * b.x)
  }

  /** Squared length. */
  function Length2(a: Vec3): real { Dot(a, a) }

  /** `sqrt` is an exact square root on the non-negative reals. */
  ghost predicate IsSqrt(sqrt: real -> real) {
    forall x :: 0.0 <= x ==> 0.0 <= sqrt(x) && sqrt(x) * sqrt(x) == x
  }

  /** The length of a vector, measured with the supplied square root. */
  function Length(a: Vec3, sqrt: real -> real): real { sqrt(Length2(a)) }

  /** `v / |v|`, as Tonatiuh's Normalize computes it: a division by the length. */
  function Normalize(v: Vec3, sqrt: real -> real): (n: Vec3)
    requires IsSqrt(sqrt) && Length2(v) != 0.0
    ensures exists k: real :: 0.0 < k && n == Scale(k, v)
    ensures Length2(n) == 1.0
  {
    var l := Length(v, sqrt);
    assert 0.0 <= l && l * l == Length2(v);
    assert l != 0.0;
    var k := 1.0 / l;
    assert k * k * Length2(v) == 1.0 by {
      calc {
        k * k * Length2(v);
        == k * k * (l * l);
        == (k * l) * (k * l);
        == 1.0;
      }
    }
    ScaleLength2(k, v);
    Scale(k, v)
  }

  lemma ScaleLength2(k: real, v: Vec3)
    ensures Length2(Scale(k, v)) == k * k * Length2(v)
  {
  }

  lemma ScaleDot(k: real, a: Vec3, b: Vec3)
    ensures Dot(Scale(k, a), b) == k * Dot(a, b)
    ensures Dot(a, Scale(k, b)) == k * Dot(a, b)
  {
  }

  /** The cross product is orthogonal to both of its factors. */
  lemma CrossOrthogonal(a: Vec3, b: Vec3)
    ensures Dot(Cross(a, b), a) == 0.0 && Dot(Cross(a, b), b) == 0.0
  {
  }

  /** The product of two positive reals is positive (stated as a lemma so
      that it can be applied to a square). */
  lemma PositiveProduct(a: real, b: real)
    requires 0.0 < a && 0.0 < b
    ensures 0.0 < a * b
  {
  }

  /** A product is zero only when one of its factors is. */
  lemma ZeroProduct(a: real, b: real)
    requires a * b == 0.0
    ensures a == 0.0 || b == 0.0
  {
  }

  /** Lagrange's identity: |a x b|^2 = |a|^2 |b|^2 - (a . b)^2. */
  lemma Lagrange(a: Vec3, b: Vec3)
    ensures Length2(Cross(a, b)) == Length2(a) * Length2(b) - Dot(a, b) * Dot(a, b)
  {
  }
}
