/**
  Three-component vectors over the reals, and the vector toolkit of the
  ray tracer: componentwise arithmetic, the dot product, normalisation and
  the gated squared-distance tests.

  Square roots are not computable over `real`, so every operation that needs
  one takes the square-root function as a parameter; `IsSqrt` states what
  such a parameter must satisfy.
 */
module Vector3 {

  datatype Vec3 = Vec3(x: real, y: real, z: real)

  const Zero: Vec3 := Vec3(0.0, 0.0, 0.0)

  /** Component `i` of `v`, as `v[i]` reads it (0 = x, 1 = y, 2 = z). */
  function At(v: Vec3, i: int): real
    requires 0 <= i < 3
  {
    if i == 0 then v.x else if i == 1 then v.y else v.z
  }

  /** The vector whose only non-zero component is `d`, at position `axis`. */
  function OneHot(axis: int, d: real): (v: Vec3)
    requires 0 <= axis < 3
    ensures At(v, axis) == d
    ensures forall i :: 0 <= i < 3 && i != axis ==> At(v, i) == 0.0
  {
    if axis == 0 then Vec3(d, 0.0, 0.0)
    else if axis == 1 then Vec3(0.0, d, 0.0)
    else Vec3(0.0, 0.0, d)
  }

  function Abs(x: real): real
  {
    if x < 0.0 then -x else x
  }

  function Max(a: real, b: real): real
  {
    if a < b then b else a
  }

  /** `f` returns the non-negative square root of every non-negative real. */
  ghost predicate IsSqrt(sqrt: real -> real)
  {
    forall x: real :: 0.0 <= x ==> 0.0 <= sqrt(x) && sqrt(x) * sqrt(x) == x
  }

  function Copy(a: Vec3): (r: Vec3)
    ensures forall i :: 0 <= i < 3 ==> At(r, i) == At(a, i)
  {
    Vec3(a.x, a.y, a.z)
  }

  function Sub(a: Vec3, b: Vec3): (r: Vec3)
    ensures forall i :: 0 <= i < 3 ==> At(r, i) == At(a, i) - At(b, i)
  {
    Vec3(a.x - b.x, a.y - b.y, a.z - b.z)
  }

  /** Componentwise sum; subtracting `b` again gives back `a`. */
  function Add(a: Vec3, b: Vec3): (r: Vec3)
    ensures forall i :: 0 <= i < 3 ==> At(r, i) == At(a, i) + At(b, i)
    ensures Sub(r, b) == a
  {
    Vec3(a.x + b.x, a.y + b.y, a.z + b.z)
  }

  /** Multiplication by a scalar; scaling by one changes nothing. */
  function Scale(a: Vec3, c: real): (r: Vec3)
    ensures forall i :: 0 <= i < 3 ==> At(r, i) == c * At(a, i)
    ensures c == 1.0 ==> r == a
    ensures c == 0.0 ==> r == Zero
  {
    Vec3(c * a.x, c * a.y, c * a.z)
  }

  function Dot(a: Vec3, b: Vec3): real
  {
    a.x * b.x + a.y * b.y + a.z * b.z
  }

  /** Componentwise product, the colour filter `mulColor` applies. */
  function MulComponents(a: Vec3, b: Vec3): (r: Vec3)
    ensures forall i :: 0 <= i < 3 ==> At(r, i) == At(a, i) * At(b, i)
  {
    Vec3(a.x * b.x, a.y * b.y, a.z * b.z)
  }

  /** Squared Euclidean distance between two points. */
  function SqDist(a: Vec3, b: Vec3): real
  {
    Dot(Sub(a, b), Sub(a, b))
  }

  /** Squared distance between the projections of two points on the x-y plane. */
  function SqDist2(a: Vec3, b: Vec3): real
  {
    (a.x - b.x) * (a.x - b.x) + (a.y - b.y) * (a.y - b.y)
  }

  /** Euclidean distance, with the square root supplied by the caller. */
  function Distance(sqrt: real -> real, a: Vec3, b: Vec3): real
  {
    sqrt(SqDist(a, b))
  }

  lemma DotSymmetric(a: Vec3, b: Vec3)
    ensures Dot(a, b) == Dot(b, a)
  {
  }

  /**
    Product as a function. Facts about products are stated through `Mul`,
    so that a square's sign survives as a fact about one term.
   */
  function Mul(p: real, q: real): real
  {
    p * q
  }

  lemma MulPositive(p: real, q: real)
    requires 0.0 < p && 0.0 < q
    ensures Mul(p, q) > 0.0
  {
  }

  lemma MulNonNegative(p: real, q: real)
    requires 0.0 <= p && 0.0 <= q
    ensures Mul(p, q) >= 0.0 && p * q >= 0.0
  {
  }

  lemma MulMonotone(p: real, q: real, p2: real, q2: real)
    requires 0.0 <= p <= p2 && 0.0 <= q <= q2
    ensures Mul(p, q) <= Mul(p2, q2)
  {
    assert p * q <= p2 * q;
    assert p2 * q <= p2 * q2;
  }

  /** A non-negative number whose square exceeds `b`'s square exceeds `b` in absolute value. */
  lemma SquareDominates(s: real, b: real)
    requires 0.0 <= s
    requires Mul(s, s) > Mul(b, b)
    ensures s > b && s > -b
  {
    if s <= Abs(b) {
      assert Mul(Abs(b), Abs(b)) == Mul(b, b);
      MulMonotone(s, s, Abs(b), Abs(b));
    }
  }

  lemma SquarePositive(x: real)
    requires x != 0.0
    ensures Mul(x, x) > 0.0
  {
    if x > 0.0 {
      MulPositive(x, x);
    } else {
      MulPositive(-x, -x);
      assert Mul(-x, -x) == Mul(x, x);
    }
  }

  lemma SquareNonNegative(x: real)
    ensures Mul(x, x) >= 0.0
  {
    if x != 0.0 {
      SquarePositive(x);
    }
  }

  /** A vector's dot product with itself is non-negative, and zero only for the zero vector. */
  lemma DotSelfNonNegative(v: Vec3)
    ensures Dot(v, v) >= 0.0
    ensures v != Zero <==> Dot(v, v) > 0.0
  {
    assert Dot(v, v) == Mul(v.x, v.x) + Mul(v.y, v.y) + Mul(v.z, v.z);
    SquareNonNegative(v.x);
    SquareNonNegative(v.y);
    SquareNonNegative(v.z);
    if v.x != 0.0 {
      SquarePositive(v.x);
    } else if v.y != 0.0 {
      SquarePositive(v.y);
    } else if v.z != 0.0 {
      SquarePositive(v.z);
    }
  }

  /** The square root of a positive number is positive. */
  lemma SqrtPositive(sqrt: real -> real, x: real)
    requires IsSqrt(sqrt) && x > 0.0
    ensures sqrt(x) > 0.0 && sqrt(x) * sqrt(x) == x
  {
    var s := sqrt(x);
    assert 0.0 <= s && s * s == x;
  }

  /** The square root of a square is the absolute value. */
  lemma SqrtOfSquare(sqrt: real -> real, d: real)
    requires IsSqrt(sqrt)
    ensures sqrt(d * d) == Abs(d)
  {
    var l := sqrt(d * d);
    var a := Abs(d);
    assert 0.0 <= d * d;
    assert 0.0 <= l && l * l == d * d;
    assert a * a == d * d;
    assert (l - a) * (l + a) == l * l - a * a;
    if l + a == 0.0 {
      assert l == 0.0 && a == 0.0;
    } else {
      assert l - a == ((l - a) * (l + a)) / (l + a);
    }
  }

  /**
    `v` divided by its length (normalize3): a unit vector which, scaled back
    by that length, is `v` again. Undefined for the zero vector, as in the
    source, where it divides by zero.
   */
  function Normalize(sqrt: real -> real, v: Vec3): (n: Vec3)
    requires IsSqrt(sqrt)
    requires v != Zero
    ensures Dot(n, n) == 1.0
    ensures Scale(n, sqrt(Dot(v, v))) == v
  {
    DotSelfNonNegative(v);
    var len := sqrt(Dot(v, v));
    assert len * len == Dot(v, v);
    assert len != 0.0;
    var k := 1.0 / len;
    var n := Scale(v, k);
    assert k * len == 1.0;
    assert Dot(n, n) == k * k * Dot(v, v);
    assert k * k * (len * len) == (k * len) * (k * len);
    assert Scale(n, len) == Scale(v, k * len);
    n
  }

  /** The outcome of a gated test: whether the point is inside, and the stored squared distance. */
  datatype Gate = Gate(inside: bool, sqDist: real)

  /**
    gatedSqDist3: gives up as soon as a partial sum of squared coordinate
    differences exceeds the radius. Because the partial sums never decrease,
    the answer is exactly the full comparison. On success the squared
    distance is recorded; on failure the previously recorded value `stored`
    is kept.
   */
  function GatedSqDist3(a: Vec3, b: Vec3, sqRadius: real, stored: real): (g: Gate)
    ensures g.inside <==> SqDist(a, b) <= sqRadius
    ensures g.inside ==> g.sqDist == SqDist(a, b)
    ensures !g.inside ==> g.sqDist == stored
  {
    var c0 := a.x - b.x;
    var d0 := c0 * c0;
    if d0 > sqRadius then
      assert (a.y - b.y) * (a.y - b.y) >= 0.0 && (a.z - b.z) * (a.z - b.z) >= 0.0;
      Gate(false, stored)
    else
      var c1 := a.y - b.y;
      var d1 := d0 + c1 * c1;
      if d1 > sqRadius then
        assert (a.z - b.z) * (a.z - b.z) >= 0.0;
        Gate(false, stored)
      else
        var c2 := a.z - b.z;
        var d2 := d1 + c2 * c2;
        if d2 > sqRadius then Gate(false, stored) else Gate(true, d2)
  }

  /** gatedSqDist2: the same gated test on the x and y coordinates only. */
  function GatedSqDist2(a: Vec3, b: Vec3, sqRadius: real, stored: real): (g: Gate)
    ensures g.inside <==> SqDist2(a, b) <= sqRadius
    ensures g.inside ==> g.sqDist == SqDist2(a, b)
    ensures !g.inside ==> g.sqDist == stored
  {
    var c0 := a.x - b.x;
    var d0 := c0 * c0;
    if d0 > sqRadius then
      assert (a.y - b.y) * (a.y - b.y) >= 0.0;
      Gate(false, stored)
    else
      var c1 := a.y - b.y;
      var d1 := d0 + c1 * c1;
      if d1 > sqRadius then Gate(false, stored) else Gate(true, d1)
  }

  /** A point within the radius in three dimensions is within it in the x-y projection. */
  lemma Gated3ImpliesGated2(a: Vec3, b: Vec3, sqRadius: real, stored: real)
    requires GatedSqDist3(a, b, sqRadius, stored).inside
    ensures GatedSqDist2(a, b, sqRadius, stored).inside
    ensures GatedSqDist2(a, b, sqRadius, stored).sqDist <= GatedSqDist3(a, b, sqRadius, stored).sqDist
  {
    assert (a.z - b.z) * (a.z - b.z) >= 0.0;
  }
}
