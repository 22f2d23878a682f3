/**
 * Three-dimensional vectors over the reals, the idealisation of the float64
 * NumPy arrays of shape (3,) and (N, 3) the pipeline computes with.
 * Square roots are never computed: a norm enters the model as a number
 * together with the fact IsNorm that it is one.
 */
module Geometry {

  datatype Vec3 = Vec3(x: real, y: real, z: real)

  /** A point set: an ordered sequence of points (an (N, 3) array). */
  type Cloud = seq<Vec3>

  const WorldX: Vec3 := Vec3(1.0, 0.0, 0.0)
  const WorldY: Vec3 := Vec3(0.0, 1.0, 0.0)

  function Add(a: Vec3, b: Vec3): Vec3 { Vec3(a.x + b.x, a.y + b.y, a.z + b.z) }

  function Sub(a: Vec3, b: Vec3): Vec3 { Vec3(a.x - b.x, a.y - b.y, a.z - b.z) }

  function Scale(k: real, a: Vec3): Vec3 { Vec3(k * a.x, k * a.y, k * a.z) }

  function Neg(a: Vec3): Vec3 { Vec3(-a.x, -a.y, -a.z) }

  function Dot(a: Vec3, b: Vec3): real { a.x * b.x + a.y * b.y + a.z * b.z }

  function Cross(a: Vec3, b: Vec3): Vec3 {
    Vec3(a.y * b.z - a.z * b.y, a.z * b.x - a.x * b.z, a.x * b.y - a.y * b.x)
  }

  function Abs(r: real): real { if r < 0.0 then -r else r }

  /** r is the Euclidean norm of v (what np.linalg.norm returns). */
  predicate IsNorm(v: Vec3, r: real) {
    r >= 0.0 && r * r == Dot(v, v)
  }

  predicate IsUnit(v: Vec3) { Dot(v, v) == 1.0 }

  lemma DotSelfNonNegative(a: Vec3)
    ensures Dot(a, a) >= 0.0
  {
    assert a.x * a.x >= 0.0 && a.y * a.y >= 0.0 && a.z * a.z >= 0.0;
  }

  lemma DotScaleLeft(k: real, a: Vec3, b: Vec3)
    ensures Dot(Scale(k, a), b) == k * Dot(a, b)
  {
  }

  lemma DotSymmetric(a: Vec3, b: Vec3)
    ensures Dot(a, b) == Dot(b, a)
  {
  }

  lemma DotSubLeft(a: Vec3, b: Vec3, c: Vec3)
    ensures Dot(Sub(a, b), c) == Dot(a, c) - Dot(b, c)
  {
  }

  lemma DotNegLeft(a: Vec3, b: Vec3)
    ensures Dot(Neg(a), b) == -Dot(a, b)
  {
  }

  /** Multiplication by a non-negative number is monotonic. */
  lemma MulMonotonic(a: real, b: real, c: real)
    requires a <= b && c >= 0.0
    ensures a * c <= b * c
  {
    assert (b - a) * c >= 0.0;
  }

  /** |t| <= b implies t^2 <= b^2. */
  lemma SquareBound(t: real, b: real)
    requires Abs(t) <= b
    ensures t * t <= b * b
  {
    var a := Abs(t);
    assert t * t == a * a;
    MulMonotonic(a, b, a);
    MulMonotonic(a, b, b);
  }

  lemma DotScaleBoth(k: real, a: Vec3)
    ensures Dot(Scale(k, a), Scale(k, a)) == (k * k) * Dot(a, a)
  {
    var s := Scale(k, a);
    assert s.x * s.x == (k * k) * (a.x * a.x);
    assert s.y * s.y == (k * k) * (a.y * a.y);
    assert s.z * s.z == (k * k) * (a.z * a.z);
  }

  /** Dividing a vector by its (non-zero) norm gives a unit vector. */
  lemma {:induction false} ScaleByInverseNorm(v: Vec3, r: real)
    requires IsNorm(v, r) && r > 0.0
    ensures IsUnit(Scale(1.0 / r, v))
  {
    DotScaleBoth(1.0 / r, v);
    assert (1.0 / r) * (1.0 / r) * (r * r) == 1.0;
  }

  /** The cross product is orthogonal to both factors. */
  lemma CrossOrthogonal(a: Vec3, b: Vec3)
    ensures Dot(Cross(a, b), a) == 0.0
    ensures Dot(Cross(a, b), b) == 0.0
  {
  }

  /** Lagrange's identity: |a x b|^2 = |a|^2 |b|^2 - (a.b)^2. */
  lemma Lagrange(a: Vec3, b: Vec3)
    ensures Dot(Cross(a, b), Cross(a, b)) == Dot(a, a) * Dot(b, b) - Dot(a, b) * Dot(a, b)
  {
  }
}
