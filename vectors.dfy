/**
 * Three-component real vectors: the part of System.Numerics.Vector3 that the
 * signed-distance shapes use (difference, sum, scaling, dot product, length,
 * normalisation), over `real` instead of `float`.
 *
 * The square root that Vector3.Length and Math.Sqrt compute is not part of
 * this model: every operation that needs one takes it as a parameter `sqrt`,
 * constrained by `IsSqrt`.
 */
module Vectors {
  import opened Quadratics

  datatype Vec3 = Vec3(x: real, y: real, z: real)

  const Zero: Vec3 := Vec3(0.0, 0.0, 0.0)

  function Add(u: Vec3, v: Vec3): Vec3 {
    Vec3(u.x + v.x, u.y + v.y, u.z + v.z)
  }

  function Sub(u: Vec3, v: Vec3): Vec3 {
    Vec3(u.x - v.x, u.y - v.y, u.z - v.z)
  }

  /** `v * k` of Vector3. */
  function Scale(v: Vec3, k: real): Vec3 {
    Vec3(v.x * k, v.y * k, v.z * k)
  }

  function Dot(u: Vec3, v: Vec3): real {
    u.x * v.x + u.y * v.y + u.z * v.z
  }

  /** `x` is in the domain of the square root. */
  predicate NonNegative(x: real) {
    0.0 <= x
  }

  /**
   * `sqrt` returns the non-negative square root of every non-negative real.
   * The quantifier is triggered by `NonNegative(x)` only: a proof asks for
   * the root of a particular argument through `SqrtFacts`.
   */
  ghost predicate IsSqrt(sqrt: real -> real) {
    forall x {:trigger NonNegative(x)} :: NonNegative(x) ==> 0.0 <= sqrt(x) && sqrt(x) * sqrt(x) == x
  }

  lemma SumOfSquaresPositive(a: real, b: real, c: real)
    requires a != 0.0 || b != 0.0 || c != 0.0
    ensures 0.0 < a * a + b * b + c * c
  {
    SquareNonNegative(a);
    SquareNonNegative(b);
    SquareNonNegative(c);
    if a != 0.0 {
      SquarePositive(a);
    } else if b != 0.0 {
      SquarePositive(b);
    } else {
      SquarePositive(c);
    }
  }

  lemma DotSelfNonNegative(v: Vec3)
    ensures 0.0 <= Dot(v, v)
    ensures v != Zero ==> 0.0 < Dot(v, v)
  {
    SquareNonNegative(v.x);
    SquareNonNegative(v.y);
    SquareNonNegative(v.z);
    if v != Zero {
      SumOfSquaresPositive(v.x, v.y, v.z);
      calc { 0.0; < v.x * v.x + v.y * v.y + v.z * v.z; == Dot(v, v); }
    }
  }

  /** What `IsSqrt` says about one argument, with the zero case spelled out. */
  lemma SqrtFacts(sqrt: real -> real, d: real)
    requires IsSqrt(sqrt) && 0.0 <= d
    ensures 0.0 <= sqrt(d) && sqrt(d) * sqrt(d) == d
    ensures d == 0.0 ==> sqrt(d) == 0.0
    ensures 0.0 < d ==> 0.0 < sqrt(d)
  {
    var s := sqrt(d);
    assert NonNegative(d);
    assert 0.0 <= s && s * s == d;
    if s != 0.0 {
      SquarePositive(s);
      calc { 0.0; < s * s; == d; }
    } else {
      calc { d; == s * s; == 0.0 * 0.0; == 0.0; }
    }
  }

  /** Vector3.Length: the Euclidean norm. */
  function Length(sqrt: real -> real, v: Vec3): (l: real)
    requires IsSqrt(sqrt)
    ensures 0.0 <= l && l * l == Dot(v, v)
    ensures v == Zero ==> l == 0.0
    ensures v != Zero ==> 0.0 < l
  {
    DotSelfNonNegative(v);
    SqrtFacts(sqrt, Dot(v, v));
    sqrt(Dot(v, v))
  }

  /**
   * Vector3.Normalize: `v / v.Length()`. For the zero vector System.Numerics
   * produces NaN components; the model returns the zero vector there.
   */
  function Normalize(sqrt: real -> real, v: Vec3): (n: Vec3)
    requires IsSqrt(sqrt)
    ensures v != Zero ==> Dot(n, n) == 1.0 && Dot(n, v) == Length(sqrt, v)
    ensures v == Zero ==> n == Zero
  {
    if v == Zero then Zero
    else
      var l := Length(sqrt, v);
      var k := 1.0 / l;
      assert Dot(Scale(v, k), Scale(v, k)) == k * k * Dot(v, v);
      assert k * k * (l * l) == (k * l) * (k * l);
      assert Dot(Scale(v, k), v) == k * (l * l);
      Scale(v, k)
  }

  /** A square root is determined by its square: `sqrt(x) == y` when `x == y * y` and `y >= 0`. */
  lemma SqrtOfSquare(sqrt: real -> real, x: real, y: real)
    requires IsSqrt(sqrt) && 0.0 <= y && x == y * y
    ensures sqrt(x) == y
  {
    SquareNonNegative(y);
    SqrtFacts(sqrt, x);
    var s := sqrt(x);
    if s < y {
      SquareStrictlyMonotonic(s, y);
    } else if y < s {
      SquareStrictlyMonotonic(y, s);
    }
  }

  /** `sqrt` is strictly monotonic on the non-negative reals. */
  lemma SqrtStrictlyMonotonic(sqrt: real -> real, x: real, y: real)
    requires IsSqrt(sqrt) && 0.0 <= x < y
    ensures sqrt(x) < sqrt(y)
  {
    SqrtFacts(sqrt, x);
    SqrtFacts(sqrt, y);
    var sx, sy := sqrt(x), sqrt(y);
    if sy <= sx {
      if sy < sx {
        SquareStrictlyMonotonic(sy, sx);
      }
      assert false;
    }
  }

  /** Expanding |u + t w|^2 along the line through u with direction w. */
  lemma DotAlongLine(u: Vec3, w: Vec3, t: real)
    ensures Dot(Add(u, Scale(w, t)), Add(u, Scale(w, t)))
         == Dot(u, u) + 2.0 * t * Dot(w, u) + t * t * Dot(w, w)
  {
    var p := Add(u, Scale(w, t));
    assert p == Vec3(u.x + w.x * t, u.y + w.y * t, u.z + w.z * t);
    SquareOfSum(u.x, w.x, t);
    SquareOfSum(u.y, w.y, t);
    SquareOfSum(u.z, w.z, t);
    Distribute(2.0 * t, w.x * u.x, w.y * u.y, w.z * u.z);
    Distribute(t * t, w.x * w.x, w.y * w.y, w.z * w.z);
  }

  lemma Distribute(k: real, a: real, b: real, c: real)
    ensures k * (a + b + c) == k * a + k * b + k * c
  {
  }

  lemma DotScale(u: Vec3, v: Vec3, k: real)
    ensures Dot(Scale(u, k), v) == k * Dot(u, v)
    ensures Dot(u, Scale(v, k)) == k * Dot(u, v)
  {
  }

  lemma ScaleByOne(v: Vec3)
    ensures Scale(v, 1.0 / 1.0) == v
  {
  }

  /** Scaling by s and then by 1/s gives the vector back. */
  lemma ScaleByInverse(v: Vec3, s: real)
    requires s != 0.0
    ensures Scale(Scale(v, s), 1.0 / s) == v
  {
    assert s * (1.0 / s) == 1.0;
    assert v.x * s * (1.0 / s) == v.x * (s * (1.0 / s));
    assert v.y * s * (1.0 / s) == v.y * (s * (1.0 / s));
    assert v.z * s * (1.0 / s) == v.z * (s * (1.0 / s));
  }

  /** A vector with a positive squared norm is not the zero vector. */
  lemma NonZeroOfNorm(v: Vec3, l: real)
    requires 0.0 < l && Dot(v, v) == l * l
    ensures v != Zero
  {
    PositiveSquare(l);
    PositiveNorm(v);
  }

  lemma PositiveNorm(v: Vec3)
    ensures Positive(Dot(v, v)) ==> v != Zero
  {
  }

  /** The length of a vector whose squared norm is l^2, l >= 0, is l. */
  lemma LengthBy(sqrt: real -> real, v: Vec3, l: real)
    requires IsSqrt(sqrt) && 0.0 <= l && Dot(v, v) == l * l
    ensures Length(sqrt, v) == l
  {
    SqrtOfSquare(sqrt, Dot(v, v), l);
  }

  /** A vector whose squared norm is l^2, l > 0, normalizes to v / l. */
  lemma NormalizeBy(sqrt: real -> real, v: Vec3, l: real)
    requires IsSqrt(sqrt) && 0.0 < l && Dot(v, v) == l * l
    ensures Normalize(sqrt, v) == Scale(v, 1.0 / l)
  {
    NonZeroOfNorm(v, l);
    LengthBy(sqrt, v, l);
    NormalizeScales(sqrt, v);
  }

  /** Normalize scales a non-zero vector by the positive factor 1/|v|. */
  lemma NormalizeScales(sqrt: real -> real, v: Vec3)
    requires IsSqrt(sqrt) && v != Zero
    ensures 0.0 < 1.0 / Length(sqrt, v)
    ensures Normalize(sqrt, v) == Scale(v, 1.0 / Length(sqrt, v))
  {
  }
}
