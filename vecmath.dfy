/** The linear algebra helpers of the tracer (dot product, length, scaling,
    addition, subtraction, reflection and colour clamping), computed exactly
    over the reals. */
module VectorMath {

  /** A point, a direction or an RGB colour: the source's three-element arrays. */
  datatype Vec3 = Vec3(x: real, y: real, z: real)

  type Color = Vec3

  const Zero: Vec3 := Vec3(0.0, 0.0, 0.0)

  /** The host's numeric primitives, `Math.sqrt` and `Math.pow`, taken as given
      functions rather than computed. */
  datatype Host = Host(sqrt: real -> real, pow: (real, real) -> real)

  /** What the model assumes of those primitives: the square root of a
      non-negative real is non-negative, positive for a positive argument, and
      exact; a power of a positive base is non-negative. */
  ghost predicate ValidHost(h: Host) {
    (forall a: real :: 0.0 <= a ==> 0.0 <= Sqrt(h, a)) &&
    (forall a: real :: 0.0 < a ==> 0.0 < Sqrt(h, a)) &&
    (forall a: real {:trigger Square(Sqrt(h, a))} :: 0.0 <= a ==> Square(Sqrt(h, a)) == a) &&
    (forall b: real, e: real :: 0.0 < b ==> 0.0 <= Pow(h, b, e))
  }

  function Square(x: real): real {
    x * x
  }

  /** `Math.sqrt(a)` as the host computes it. */
  function Sqrt(h: Host, a: real): real {
    h.sqrt(a)
  }

  /** `Math.pow(base, exponent)` as the host computes it. */
  function Pow(h: Host, base: real, exponent: real): real {
    h.pow(base, exponent)
  }

  function DotProduct(v1: Vec3, v2: Vec3): real {
    v1.x * v2.x + v1.y * v2.y + v1.z * v2.z
  }

  function Length(h: Host, v: Vec3): (r: real)
    ensures ValidHost(h) ==> 0.0 <= r
    ensures ValidHost(h) && v != Zero ==> 0.0 < r
  {
    DotProductSelf(v);
    Sqrt(h, DotProduct(v, v))
  }

  /** k * vec */
  function Multiply(k: real, vec: Vec3): Vec3 {
    Vec3(k * vec.x, k * vec.y, k * vec.z)
  }

  function Add(v1: Vec3, v2: Vec3): Vec3 {
    Vec3(v1.x + v2.x, v1.y + v2.y, v1.z + v2.z)
  }

  /** v1 - v2, the vector that added to v2 gives back v1. */
  function Subtract(v1: Vec3, v2: Vec3): (r: Vec3)
    ensures Add(r, v2) == v1
  {
    Vec3(v1.x - v2.x, v1.y - v2.y, v1.z - v2.z)
  }

  /** The reflection of v1 about the axis v2: 2 (v1 . v2) v2 - v1. */
  function ReflectRay(v1: Vec3, v2: Vec3): Vec3 {
    Subtract(Multiply(2.0 * DotProduct(v1, v2), v2), v1)
  }

  /** One channel limited to [0, 255], as Math.min(255, Math.max(0, v)). */
  function ClampChannel(v: real): (r: real)
    ensures 0.0 <= r <= 255.0
    ensures 0.0 <= v <= 255.0 ==> r == v
    ensures v < 0.0 ==> r == 0.0
    ensures 255.0 < v ==> r == 255.0
  {
    var lo := if 0.0 < v then v else 0.0;
    if 255.0 < lo then 255.0 else lo
  }

  /** Limits every channel of a colour to the canonical range [0, 255]. */
  function Clamp(vec: Color): (r: Color)
    ensures 0.0 <= r.x <= 255.0 && 0.0 <= r.y <= 255.0 && 0.0 <= r.z <= 255.0
    ensures 0.0 <= vec.x <= 255.0 ==> r.x == vec.x
    ensures 0.0 <= vec.y <= 255.0 ==> r.y == vec.y
    ensures 0.0 <= vec.z <= 255.0 ==> r.z == vec.z
  {
    Vec3(ClampChannel(vec.x), ClampChannel(vec.y), ClampChannel(vec.z))
  }

  lemma ClampIdempotent(c: Color)
    ensures Clamp(Clamp(c)) == Clamp(c)
  {
  }

  /** The clamp boundary case: (300, -10, 255) is emitted as (255, 0, 255). */
  lemma ClampBoundaryExample()
    ensures Clamp(Vec3(300.0, -10.0, 255.0)) == Vec3(255.0, 0.0, 255.0)
  {
  }

  /** p and q are both positive, both negative, or both zero. */
  predicate SameSign(p: real, q: real) {
    (0.0 < p <==> 0.0 < q) && (p < 0.0 <==> q < 0.0)
  }

  lemma SameSignProduct(p: real, q: real)
    requires SameSign(p, q)
    ensures 0.0 <= p * q
    ensures p != 0.0 ==> 0.0 < p * q
  {
  }

  /** The dot product of two vectors whose components agree in sign is
      non-negative, and positive unless the first is the zero vector; with
      both arguments the same vector, this is the squared length. */
  lemma SameSignDotProduct(v: Vec3, w: Vec3)
    requires SameSign(v.x, w.x) && SameSign(v.y, w.y) && SameSign(v.z, w.z)
    ensures 0.0 <= DotProduct(v, w)
    ensures v != Zero ==> 0.0 < DotProduct(v, w)
  {
    SameSignProduct(v.x, w.x);
    SameSignProduct(v.y, w.y);
    SameSignProduct(v.z, w.z);
  }

  /** The squared length is never negative and is zero exactly for the zero vector. */
  lemma DotProductSelf(v: Vec3)
    ensures 0.0 <= DotProduct(v, v)
    ensures DotProduct(v, v) == 0.0 <==> v == Zero
  {
    SameSignDotProduct(v, v);
  }

  /** A product is zero only when a factor is. */
  lemma ZeroProduct(a: real, b: real)
    requires a * b == 0.0
    ensures a == 0.0 || b == 0.0
  {
    if a != 0.0 && b != 0.0 {
      if (0.0 < a) == (0.0 < b) {
        SameSignProduct(a, b);
      } else {
        SameSignProduct(a, -b);
      }
    }
  }

  lemma SquareBoth(a: real, b: real)
    requires a == b
    ensures a * a == b * b
  {
  }

  lemma ScaleBoth(c: real, a: real, b: real)
    requires a == b
    ensures c * a == c * b
  {
  }

  lemma DivideThenMultiply(n: real, a: real)
    requires a != 0.0
    ensures (n / a) * a == n
  {
  }

  /** The unique solution of t a = n for a non-zero a. */
  lemma SolveLinear(t: real, a: real, n: real)
    requires a != 0.0 && t * a == n
    ensures t == n / a
  {
    DivideThenMultiply(n, a);
    ZeroProduct(t - n / a, a);
  }

  /** Two reals with the same square are equal or opposite. */
  lemma SameSquare(u: real, s: real, square: real)
    requires u * u == square && s * s == square
    ensures u == s || u == -s
  {
    ZeroProduct(u - s, u + s);
  }

  lemma SquareNonNegative(u: real, square: real)
    requires square == u * u
    ensures 0.0 <= square
  {
  }

  /** A positive dot product means neither vector is zero, so both have a
      positive length: the divisions in the shading formulas are defined. */
  lemma PositiveDotProductLengths(h: Host, a: Vec3, b: Vec3)
    requires ValidHost(h)
    requires 0.0 < DotProduct(a, b)
    ensures 0.0 < Length(h, a) && 0.0 < Length(h, b)
    ensures 0.0 < Length(h, a) * Length(h, b)
  {
    assert a != Zero && b != Zero;
    PositiveProduct(Length(h, a), Length(h, b));
  }

  lemma PositiveProduct(p: real, q: real)
    requires 0.0 < p && 0.0 < q
    ensures 0.0 < p * q
  {
  }

  /** The length squares to the dot product of the vector with itself. */
  lemma LengthSquared(h: Host, v: Vec3)
    requires ValidHost(h)
    ensures Square(Length(h, v)) == DotProduct(v, v)
  {
    DotProductSelf(v);
    assert Square(Sqrt(h, DotProduct(v, v))) == DotProduct(v, v);
  }

  /** Scaling either argument of the dot product scales the result. */
  lemma MultiplyDotProduct(k: real, a: Vec3, b: Vec3)
    ensures DotProduct(Multiply(k, a), b) == k * DotProduct(a, b)
    ensures DotProduct(b, Multiply(k, a)) == k * DotProduct(a, b)
  {
  }

  /** Reflecting about a unit axis keeps the component along the axis. */
  lemma ReflectRayKeepsAxisComponent(v: Vec3, n: Vec3)
    requires DotProduct(n, n) == 1.0
    ensures DotProduct(ReflectRay(v, n), n) == DotProduct(v, n)
  {
    var k := 2.0 * DotProduct(v, n);
    MultiplyDotProduct(k, n, n);
    calc {
      DotProduct(ReflectRay(v, n), n);
      DotProduct(Multiply(k, n), n) - DotProduct(v, n);
      k * 1.0 - DotProduct(v, n);
      DotProduct(v, n);
    }
  }

  /** Reflecting twice about the same unit axis gives back the input. */
  lemma ReflectRayInvolution(v: Vec3, n: Vec3)
    requires DotProduct(n, n) == 1.0
    ensures ReflectRay(ReflectRay(v, n), n) == v
  {
    ReflectRayKeepsAxisComponent(v, n);
  }

  /** Reflecting about a unit axis preserves the squared length. */
  lemma ReflectRayPreservesLength(v: Vec3, n: Vec3)
    requires DotProduct(n, n) == 1.0
    ensures DotProduct(ReflectRay(v, n), ReflectRay(v, n)) == DotProduct(v, v)
  {
    var k := 2.0 * DotProduct(v, n);
    var m := Multiply(k, n);
    var r := ReflectRay(v, n);
    assert r == Subtract(m, v);
    assert DotProduct(r, r) == DotProduct(m, m) - 2.0 * DotProduct(m, v) + DotProduct(v, v);
    MultiplyDotProduct(k, n, n);
    MultiplyDotProduct(k, n, m);
    MultiplyDotProduct(k, n, v);
    assert DotProduct(m, m) == k * k;
    assert DotProduct(m, v) == k * DotProduct(n, v);
  }
}
