/**
  The scene objects of the tracer (`CObj`): spheres and axis-aligned planes,
  their construction and setters, their surface normals and the distance
  along a ray at which the ray meets them.

  A sphere keeps its centre in coords[0..3] and its radius in coords[3]. A
  plane keeps the index of the axis it is perpendicular to in coords[0] (a
  float, truncated to an integer when used) and its offset along that axis
  in coords[1].
 */
module Objects {
  import opened Vector3

  /** The distance reported when a ray misses an object. */
  const NotIntersected: real := 1000000.0

  /** A ray origin whose `C` term is below minus this is taken to be inside the sphere. */
  const InsideTolerance: real := 0.00001

  /** The type tags 0, 1 and 2. Triangles have no geometry in this program. */
  datatype ObjType = Sphere | Plane | Triangle

  /** The optic tags 0, 1 and 2. */
  datatype Optic = OptNone | OptReflect | OptRefract

  /** The nine coordinate slots every object carries. */
  type Coords = s: seq<real> | |s| == 9
    witness [0.0, 0.0, 0.0, 0.0, 0.0, 0.0, 0.0, 0.0, 0.0]

  /**
    An object. `kind`, `index`, `optic` and `refractive` are private in the
    source; `coords` and `color` are public and are written directly by
    other code (dragging moves a sphere by writing its coordinates).
   */
  datatype Obj = Obj(
    kind: ObjType,
    index: int,
    optic: Optic,
    refractive: real,
    coords: Coords,
    color: Vec3)

  const White: Vec3 := Vec3(1.0, 1.0, 1.0)

  /** How many coordinates the constructor copies for an object of this type. */
  function CoordCount(kind: ObjType): (n: nat)
    ensures n <= 9
  {
    match kind
    case Sphere => 4
    case Plane => 2
    case Triangle => 0
  }

  /**
    The constructor. `prior` stands for whatever the coordinate slots held
    before: the constructor only writes the first `CoordCount(kind)` of them.
   */
  function NewObj(kind: ObjType, idx: int, cod: seq<real>, prior: Coords): (o: Obj)
    requires |cod| >= CoordCount(kind)
    ensures o.kind == kind && o.index == idx
    ensures o.optic == OptNone && o.refractive == 1.0 && o.color == White
    ensures forall i :: 0 <= i < CoordCount(kind) ==> o.coords[i] == cod[i]
    ensures forall i :: CoordCount(kind) <= i < 9 ==> o.coords[i] == prior[i]
  {
    var n := CoordCount(kind);
    Obj(kind, idx, OptNone, 1.0, cod[..n] + prior[n..], White)
  }

  /** setOptics: only the optic changes. */
  function SetOptics(o: Obj, op: Optic): (r: Obj)
    ensures r.optic == op
    ensures r.(optic := o.optic) == o
  {
    o.(optic := op)
  }

  /** setColor: the three colour components are copied and nothing else changes. */
  function SetColor(o: Obj, cl: seq<real>): (r: Obj)
    requires |cl| >= 3
    ensures forall i :: 0 <= i < 3 ==> At(r.color, i) == cl[i]
    ensures r.(color := o.color) == o
  {
    o.(color := Vec3(cl[0], cl[1], cl[2]))
  }

  /** Moving an object by writing its first two public coordinates, as dragging a sphere does. */
  function MoveBy(o: Obj, dx: real, dy: real): (r: Obj)
    ensures r.coords[0] == o.coords[0] + dx && r.coords[1] == o.coords[1] + dy
    ensures forall i :: 2 <= i < 9 ==> r.coords[i] == o.coords[i]
    ensures r.(coords := o.coords) == o
  {
    o.(coords := o.coords[0 := o.coords[0] + dx][1 := o.coords[1] + dy])
  }

  /** The ways code outside the class can change an object after construction. */
  datatype Update =
    | SetOpticsTo(op: Optic)
    | SetColorTo(c: Vec3)
    | Move(dx: real, dy: real)

  function Apply(o: Obj, u: Update): Obj
  {
    match u
    case SetOpticsTo(op) => SetOptics(o, op)
    case SetColorTo(c) => SetColor(o, [c.x, c.y, c.z])
    case Move(dx, dy) => MoveBy(o, dx, dy)
  }

  function ApplyAll(o: Obj, us: seq<Update>): Obj
    decreases |us|
  {
    if |us| == 0 then o else ApplyAll(Apply(o, us[0]), us[1..])
  }

  /**
    The type, index and refractive index have no setters: after any
    sequence of updates they are what the constructor set.
   */
  lemma {:induction false} UpdatesKeepIdentity(o: Obj, us: seq<Update>)
    ensures ApplyAll(o, us).kind == o.kind
    ensures ApplyAll(o, us).index == o.index
    ensures ApplyAll(o, us).refractive == o.refractive
    decreases |us|
  {
    if |us| > 0 {
      UpdatesKeepIdentity(Apply(o, us[0]), us[1..]);
    }
  }

  // ---------------------------------------------------------------------
  // Geometry accessors
  // ---------------------------------------------------------------------

  function Center(o: Obj): Vec3
  {
    Vec3(o.coords[0], o.coords[1], o.coords[2])
  }

  function Radius(o: Obj): real
  {
    o.coords[3]
  }

  /** The C cast `(int) x`: truncation toward zero. */
  function Trunc(x: real): (n: int)
    ensures 0.0 <= x ==> n as real <= x < n as real + 1.0
    ensures x < 0.0 ==> n as real - 1.0 < x <= n as real
  {
    if x >= 0.0 then x.Floor else -((-x).Floor)
  }

  /** The axis a plane is perpendicular to. */
  function Axis(o: Obj): int
  {
    Trunc(o.coords[0])
  }

  /** The offset of a plane along its axis. */
  function PlaneOffset(o: Obj): real
  {
    o.coords[1]
  }

  /** The plane's axis names a vector component; otherwise the source indexes out of bounds. */
  predicate ValidAxis(o: Obj)
  {
    0 <= Axis(o) < 3
  }

  // ---------------------------------------------------------------------
  // Plane
  // ---------------------------------------------------------------------

  /**
    calcPlaneIntersection: the ray parameter at which the ray meets the
    plane, or the miss sentinel for a ray parallel to it.
   */
  function PlaneIntersection(o: Obj, r: Vec3, org: Vec3): (t: real)
    requires ValidAxis(o)
    ensures At(r, Axis(o)) == 0.0 ==> t == NotIntersected
    ensures At(r, Axis(o)) != 0.0 ==> At(org, Axis(o)) + t * At(r, Axis(o)) == PlaneOffset(o)
  {
    var axis := Axis(o);
    if At(r, axis) != 0.0 then (PlaneOffset(o) - At(org, axis)) / At(r, axis)
    else NotIntersected
  }

  /** A non-parallel ray meets the plane at the returned parameter: the point lies on the plane. */
  lemma PlaneHitOnPlane(o: Obj, r: Vec3, org: Vec3)
    requires ValidAxis(o)
    requires At(r, Axis(o)) != 0.0
    ensures At(Add(org, Scale(r, PlaneIntersection(o, r, org))), Axis(o)) == PlaneOffset(o)
  {
    var t := PlaneIntersection(o, r, org);
    assert At(Scale(r, t), Axis(o)) == t * At(r, Axis(o));
  }

  /**
    calcPlaneNormal: the unit vector along the plane's axis, pointing from
    the plane toward the reference point `ref`. `ref` must be off the
    plane; on the plane the source normalises the zero vector.
   */
  function PlaneNormal(sqrt: real -> real, o: Obj, p: Vec3, ref: Vec3): (n: Vec3)
    requires IsSqrt(sqrt)
    requires ValidAxis(o)
    requires At(ref, Axis(o)) != PlaneOffset(o)
    ensures forall i :: 0 <= i < 3 && i != Axis(o) ==> At(n, i) == 0.0
    ensures At(ref, Axis(o)) > PlaneOffset(o) ==> At(n, Axis(o)) == 1.0
    ensures At(ref, Axis(o)) < PlaneOffset(o) ==> At(n, Axis(o)) == -1.0
  {
    var axis := Axis(o);
    var d := At(ref, axis) - PlaneOffset(o);
    var v := OneHot(axis, d);
    assert v != Zero by {
      assert At(v, axis) == d;
    }
    var n := Normalize(sqrt, v);
    OneHotLength(sqrt, axis, d);
    n
  }

  /** A one-hot vector normalises to plus or minus one in its component, by the sign of `d`. */
  lemma OneHotLength(sqrt: real -> real, axis: int, d: real)
    requires IsSqrt(sqrt)
    requires 0 <= axis < 3 && d != 0.0
    ensures OneHot(axis, d) != Zero
    ensures d > 0.0 ==> At(Normalize(sqrt, OneHot(axis, d)), axis) == 1.0
    ensures d < 0.0 ==> At(Normalize(sqrt, OneHot(axis, d)), axis) == -1.0
    ensures forall i :: 0 <= i < 3 && i != axis ==> At(Normalize(sqrt, OneHot(axis, d)), i) == 0.0
  {
    var v := OneHot(axis, d);
    assert At(v, axis) == d;
    var len := OneHotNorm(sqrt, axis, d);
    var n := Normalize(sqrt, v);
    ScaledBack(n, len, v);
    assert At(n, axis) == d / Abs(d);
  }

  /** The length of a one-hot vector is the absolute value of its component. */
  lemma OneHotNorm(sqrt: real -> real, axis: int, d: real) returns (len: real)
    requires IsSqrt(sqrt)
    requires 0 <= axis < 3
    ensures len == sqrt(Dot(OneHot(axis, d), OneHot(axis, d))) == Abs(d)
  {
    var v := OneHot(axis, d);
    assert Dot(v, v) == d * d;
    SqrtOfSquare(sqrt, d);
    len := Abs(d);
  }

  /** Dividing back: if `n` scaled by a positive `len` is `v`, each component of `n` is `v`'s over `len`. */
  lemma ScaledBack(n: Vec3, len: real, v: Vec3)
    requires len > 0.0 && Scale(n, len) == v
    ensures forall i :: 0 <= i < 3 ==> At(n, i) == At(v, i) / len
  {
    forall i | 0 <= i < 3
      ensures At(n, i) == At(v, i) / len
    {
      assert len * At(n, i) == At(v, i);
    }
  }

  // ---------------------------------------------------------------------
  // Sphere
  // ---------------------------------------------------------------------

  /** Coefficients of a quadratic `a t^2 + b t + c`. */
  datatype Quadratic = Quadratic(a: real, b: real, c: real)

  function Discriminant(q: Quadratic): real
  {
    q.b * q.b - 4.0 * q.a * q.c
  }

  function Eval(q: Quadratic, t: real): real
  {
    q.a * t * t + q.b * t + q.c
  }

  ghost predicate IsRoot(q: Quadratic, t: real)
  {
    Eval(q, t) == 0.0
  }

  /**
    The quadratic in the ray parameter whose roots are where the ray
    `org + t r` meets the sphere: A = r.r, B = -2 s.r, C = s.s - radius^2,
    with s the centre relative to the origin.
   */
  function SphereQuadratic(o: Obj, r: Vec3, org: Vec3): Quadratic
  {
    var s := Sub(Center(o), org);
    Quadratic(Dot(r, r), -2.0 * Dot(s, r), Dot(s, s) - Radius(o) * Radius(o))
  }

  /** A positive discriminant implies a non-zero ray direction, so the division below is defined. */
  lemma PositiveDiscriminantRay(o: Obj, r: Vec3, org: Vec3)
    requires Discriminant(SphereQuadratic(o, r, org)) > 0.0
    ensures SphereQuadratic(o, r, org).a > 0.0
    ensures r != Zero
  {
    if r == Zero {
      ZeroRayNoCrossing(o, r, org);
    }
    DotSelfNonNegative(r);
  }

  /** A zero direction gives the degenerate quadratic with zero discriminant. */
  lemma ZeroRayNoCrossing(o: Obj, r: Vec3, org: Vec3)
    requires r == Zero
    ensures Discriminant(SphereQuadratic(o, r, org)) == 0.0
  {
    var q := SphereQuadratic(o, r, org);
    assert q.a == 0.0 && q.b == 0.0;
    ZeroLeadingDiscriminant(q);
  }

  /**
    calcSphereIntersection: the ray parameter of the entry point when the
    origin is outside the sphere (the smaller root), of the exit point when
    it is inside (the larger root), or the miss sentinel when the ray does
    not cross the sphere at two points.
   */
  function SphereIntersection(sqrt: real -> real, o: Obj, r: Vec3, org: Vec3): (t: real)
    ensures Discriminant(SphereQuadratic(o, r, org)) <= 0.0 ==> t == NotIntersected
  {
    var q := SphereQuadratic(o, r, org);
    var d := Discriminant(q);
    if d > 0.0 then
      PositiveDiscriminantRay(o, r, org);
      var sign := if q.c < -InsideTolerance then 1.0 else -1.0;
      (-q.b + sign * sqrt(d)) / (2.0 * q.a)
    else
      NotIntersected
  }

  lemma ZeroLeadingDiscriminant(q: Quadratic)
    requires q.a == 0.0 && q.b == 0.0
    ensures Discriminant(q) == 0.0
  {
  }

  /** `2 a t + b` is the signed distance of a root from the vertex, scaled. */
  lemma QuadraticIdentity(q: Quadratic, t: real)
    ensures 4.0 * q.a * Eval(q, t) == Mul(2.0 * q.a * t + q.b, 2.0 * q.a * t + q.b) - Discriminant(q)
  {
  }

  /** The quadratic formula: with `s` a square root of the discriminant, both `(-b ± s) / 2a` are roots. */
  lemma QuadraticFormula(q: Quadratic, s: real, sign: real)
    requires q.a != 0.0
    requires s * s == Discriminant(q)
    requires sign == 1.0 || sign == -1.0
    ensures IsRoot(q, (-q.b + sign * s) / (2.0 * q.a))
  {
    var t := (-q.b + sign * s) / (2.0 * q.a);
    var w := 2.0 * q.a * t + q.b;
    assert 2.0 * q.a * t == -q.b + sign * s;
    assert w == sign * s;
    assert Mul(w, w) == s * s;
    QuadraticIdentity(q, t);
    assert 4.0 * q.a * Eval(q, t) == 0.0;
  }

  /** Conversely, a quadratic with non-zero leading coefficient has no roots but those two. */
  lemma OnlyTwoRoots(q: Quadratic, s: real, u: real)
    requires q.a != 0.0
    requires s * s == Discriminant(q)
    requires IsRoot(q, u)
    ensures u == (-q.b + s) / (2.0 * q.a) || u == (-q.b - s) / (2.0 * q.a)
  {
    var w := 2.0 * q.a * u + q.b;
    QuadraticIdentity(q, u);
    assert Mul(w, w) - s * s == 0.0;
    assert (w - s) * (w + s) == 0.0;
    if w - s == 0.0 {
      assert 2.0 * q.a * u == -q.b + s;
    } else {
      assert w + s == 0.0;
      assert 2.0 * q.a * u == -q.b - s;
    }
  }

  /** Of the two roots, `(-b - s) / 2a` is the smaller when the leading coefficient is positive. */
  lemma RootsOrdered(q: Quadratic, s: real, u: real)
    requires q.a > 0.0 && 0.0 <= s
    requires s * s == Discriminant(q)
    requires IsRoot(q, u)
    ensures (-q.b - s) / (2.0 * q.a) <= u <= (-q.b + s) / (2.0 * q.a)
  {
    OnlyTwoRoots(q, s, u);
    DivideMonotone(-q.b - s, -q.b + s, 2.0 * q.a);
  }

  lemma DivideMonotone(x: real, y: real, k: real)
    requires x <= y && k > 0.0
    ensures x / k <= y / k
  {
    assert (y - x) / k >= 0.0;
    assert y / k - x / k == (y - x) / k;
  }

  /**
    The point `org + t r` lies on the sphere exactly when `t` is a root of
    the sphere's quadratic: the quadratic is the squared distance from the
    centre minus the squared radius.
   */
  lemma SphereQuadraticMeaning(o: Obj, r: Vec3, org: Vec3, t: real)
    ensures Eval(SphereQuadratic(o, r, org), t)
      == SqDist(Add(org, Scale(r, t)), Center(o)) - Radius(o) * Radius(o)
  {
    var c := Center(o);
    var s := Sub(c, org);
    var p := Add(org, Scale(r, t));
    ComponentSquare(org.x, r.x, c.x, t);
    ComponentSquare(org.y, r.y, c.y, t);
    ComponentSquare(org.z, r.z, c.z, t);
    assert Sub(p, c) == Vec3(org.x + t * r.x - c.x, org.y + t * r.y - c.y, org.z + t * r.z - c.z);
  }

  lemma ComponentSquare(o: real, r: real, c: real, t: real)
    ensures (o + t * r - c) * (o + t * r - c)
      == t * t * (r * r) - 2.0 * t * ((c - o) * r) + (c - o) * (c - o)
  {
  }

  /**
    When the discriminant is positive the returned parameter is a root, so
    the point it names lies on the sphere.
   */
  lemma SphereHitOnSphere(sqrt: real -> real, o: Obj, r: Vec3, org: Vec3)
    requires IsSqrt(sqrt)
    requires Discriminant(SphereQuadratic(o, r, org)) > 0.0
    ensures IsRoot(SphereQuadratic(o, r, org), SphereIntersection(sqrt, o, r, org))
    ensures SqDist(Add(org, Scale(r, SphereIntersection(sqrt, o, r, org))), Center(o))
      == Radius(o) * Radius(o)
  {
    var q := SphereQuadratic(o, r, org);
    var d := Discriminant(q);
    PositiveDiscriminantRay(o, r, org);
    var sign := if q.c < -InsideTolerance then 1.0 else -1.0;
    assert sqrt(d) * sqrt(d) == d;
    QuadraticFormula(q, sqrt(d), sign);
    SphereQuadraticMeaning(o, r, org, SphereIntersection(sqrt, o, r, org));
  }

  /**
    The root-selection rule. From inside the sphere (`C` below the
    tolerance) the larger root is returned, and it lies ahead of the
    origin; from outside the smaller one is.
   */
  lemma SphereRootChoice(sqrt: real -> real, o: Obj, r: Vec3, org: Vec3)
    requires IsSqrt(sqrt)
    requires Discriminant(SphereQuadratic(o, r, org)) > 0.0
    ensures SphereQuadratic(o, r, org).c < -InsideTolerance ==>
      SphereIntersection(sqrt, o, r, org) > 0.0
      && forall u :: IsRoot(SphereQuadratic(o, r, org), u) ==> u <= SphereIntersection(sqrt, o, r, org)
    ensures SphereQuadratic(o, r, org).c >= -InsideTolerance ==>
      forall u :: IsRoot(SphereQuadratic(o, r, org), u) ==> SphereIntersection(sqrt, o, r, org) <= u
  {
    var q := SphereQuadratic(o, r, org);
    var d := Discriminant(q);
    var t := SphereIntersection(sqrt, o, r, org);
    PositiveDiscriminantRay(o, r, org);
    var s := sqrt(d);
    assert 0.0 <= s && s * s == d;
    forall u | IsRoot(q, u)
      ensures (-q.b - s) / (2.0 * q.a) <= u <= (-q.b + s) / (2.0 * q.a)
    {
      RootsOrdered(q, s, u);
    }
    if q.c < -InsideTolerance {
      assert t == (-q.b + s) / (2.0 * q.a);
      InsideRootAhead(q, s);
    } else {
      assert t == (-q.b - s) / (2.0 * q.a);
    }
  }

  /** With a negative constant term the larger root is positive. */
  lemma InsideRootAhead(q: Quadratic, s: real)
    requires q.a > 0.0 && q.c < 0.0 && 0.0 <= s
    requires s * s == Discriminant(q)
    ensures (-q.b + s) / (2.0 * q.a) > 0.0
  {
    assert 4.0 * q.a * q.c < 0.0 by {
      MulPositive(q.a, -q.c);
    }
    assert Mul(s, s) > Mul(q.b, q.b);
    SquareDominates(s, q.b);
  }
}
