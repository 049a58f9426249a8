/**
  The scene as the tracer sees it: the list of objects, the per-object
  dispatch (`rayObject`), the nearest-hit selection (`checkDistance`,
  `raytrace`) and the surface normal of whatever was hit (`surfaceNormal`).

  The source keeps the result of a trace in globals (`gIntersect`, `gDist`,
  `gObje`); here a trace returns them as a `Hit`. The object is named by
  its position in the list. `raytrace` never resets `gObje`, so a trace
  that hits nothing leaves the previous object in place: `Raytrace` takes
  that previous object as `prev` and returns it on a miss.
 */
module Scene {
  import opened Vector3
  import opened Objects

  datatype Hit = Hit(intersect: bool, dist: real, obj: nat)

  /** The geometry of a plane names a valid axis; other types have no such need. */
  predicate Shaped(o: Obj)
  {
    o.kind == Plane ==> ValidAxis(o)
  }

  /**
    A scene as `initObje` builds it: at most 64 objects (the photon store
    has 64 buckets), each numbered by its position, each well shaped.
   */
  predicate SceneWellFormed(objs: seq<Obj>)
  {
    |objs| <= 64
    && (forall i :: 0 <= i < |objs| ==> objs[i].index == i)
    && (forall i :: 0 <= i < |objs| ==> Shaped(objs[i]))
  }

  /** A distance `checkDistance` can accept on a fresh trace: positive and below the sentinel. */
  predicate Accepted(d: real)
  {
    0.0 < d < NotIntersected
  }

  /**
    Point `p` lies on the surface of `o`: at the radius from a sphere's
    centre, or at a plane's offset along its axis. No point lies on a
    triangle, which the tracer never hits.
   */
  predicate OnSurface(o: Obj, p: Vec3)
    requires Shaped(o)
  {
    match o.kind
    case Sphere => SqDist(p, Center(o)) == Radius(o) * Radius(o)
    case Plane => At(p, Axis(o)) == PlaneOffset(o)
    case Triangle => false
  }

  /**
    rayObject: the distance along the ray to one object. A triangle is
    never hit, and an accepted distance names a point on the object's
    surface.
   */
  function Intersection(sqrt: real -> real, o: Obj, r: Vec3, org: Vec3): (t: real)
    requires Shaped(o)
    ensures o.kind == Triangle ==> t == NotIntersected
    ensures IsSqrt(sqrt) && Accepted(t) ==> o.kind != Triangle && OnSurface(o, Add(org, Scale(r, t)))
  {
    match o.kind
    case Sphere =>
      SphereAcceptedOnSurface(sqrt, o, r, org);
      SphereIntersection(sqrt, o, r, org)
    case Plane =>
      PlaneAcceptedOnSurface(o, r, org);
      PlaneIntersection(o, r, org)
    case Triangle => NotIntersected
  }

  /** An accepted sphere distance comes from a positive discriminant, so its point is on the sphere. */
  lemma SphereAcceptedOnSurface(sqrt: real -> real, o: Obj, r: Vec3, org: Vec3)
    ensures IsSqrt(sqrt) && Accepted(SphereIntersection(sqrt, o, r, org)) ==>
      SqDist(Add(org, Scale(r, SphereIntersection(sqrt, o, r, org))), Center(o)) == Radius(o) * Radius(o)
  {
    if IsSqrt(sqrt) && Accepted(SphereIntersection(sqrt, o, r, org)) {
      SphereHitOnSphere(sqrt, o, r, org);
    }
  }

  /** An accepted plane distance comes from a ray that is not parallel, so its point is on the plane. */
  lemma PlaneAcceptedOnSurface(o: Obj, r: Vec3, org: Vec3)
    requires ValidAxis(o)
    ensures Accepted(PlaneIntersection(o, r, org)) ==>
      At(Add(org, Scale(r, PlaneIntersection(o, r, org))), Axis(o)) == PlaneOffset(o)
  {
    if Accepted(PlaneIntersection(o, r, org)) {
      PlaneHitOnPlane(o, r, org);
    }
  }

  /** checkDistance: the candidate at position `pos` replaces the best so far if strictly nearer and ahead. */
  function CheckDistance(h: Hit, d: real, pos: nat): Hit
  {
    if d < h.dist && d > 0.0 then Hit(true, d, pos) else h
  }

  /** The state of the trace globals before any object is examined. */
  function NoHit(prev: nat): Hit
  {
    Hit(false, NotIntersected, prev)
  }

  /**
    The fold `raytrace` performs over a list of distances: `checkDistance`
    applied to each in order, starting from no hit. The result is the
    smallest accepted distance, at the first position holding it; with no
    accepted distance the trace misses and the previous object stays.
   */
  function Nearest(ds: seq<real>, prev: nat): (h: Hit)
    ensures h.intersect <==> exists i :: 0 <= i < |ds| && Accepted(ds[i])
    ensures h.intersect ==> h.obj < |ds| && h.dist == ds[h.obj] && Accepted(h.dist)
    ensures h.intersect ==> forall i :: 0 <= i < |ds| && Accepted(ds[i]) ==> h.dist <= ds[i]
    ensures h.intersect ==> forall i :: 0 <= i < h.obj && Accepted(ds[i]) ==> h.dist < ds[i]
    ensures !h.intersect ==> h.dist == NotIntersected && h.obj == prev
    decreases |ds|
  {
    if |ds| == 0 then NoHit(prev)
    else
      var front := ds[..|ds| - 1];
      var h0 := Nearest(front, prev);
      assert forall i :: 0 <= i < |front| ==> front[i] == ds[i];
      CheckDistance(h0, ds[|ds| - 1], |ds| - 1)
  }

  /** The distance to every object of the scene, in list order. */
  function Distances(sqrt: real -> real, objs: seq<Obj>, r: Vec3, org: Vec3): (ds: seq<real>)
    requires forall i :: 0 <= i < |objs| ==> Shaped(objs[i])
    ensures |ds| == |objs|
    ensures forall i :: 0 <= i < |objs| ==> ds[i] == Intersection(sqrt, objs[i], r, org)
    decreases |objs|
  {
    if |objs| == 0 then []
    else [Intersection(sqrt, objs[0], r, org)] + Distances(sqrt, objs[1..], r, org)
  }

  /**
    raytrace: the nearest object ahead of `org` along `r`. It hits exactly
    when some object reports an accepted distance; the distance is the
    least such, ties go to the object earlier in the list, and the hit
    point lies on the hit object's surface.
   */
  function Raytrace(sqrt: real -> real, objs: seq<Obj>, r: Vec3, org: Vec3, prev: nat): (h: Hit)
    requires forall i :: 0 <= i < |objs| ==> Shaped(objs[i])
    ensures h.intersect <==> exists i :: 0 <= i < |objs| && Accepted(Intersection(sqrt, objs[i], r, org))
    ensures h.intersect ==> h.obj < |objs| && h.dist == Intersection(sqrt, objs[h.obj], r, org)
    ensures h.intersect ==> Accepted(h.dist)
    ensures h.intersect ==> forall i :: 0 <= i < |objs| && Accepted(Intersection(sqrt, objs[i], r, org)) ==>
      h.dist <= Intersection(sqrt, objs[i], r, org)
    ensures h.intersect ==> forall i :: 0 <= i < h.obj && Accepted(Intersection(sqrt, objs[i], r, org)) ==>
      h.dist < Intersection(sqrt, objs[i], r, org)
    ensures !h.intersect ==> h.dist == NotIntersected && h.obj == prev
    ensures IsSqrt(sqrt) && h.intersect ==> OnSurface(objs[h.obj], Add(org, Scale(r, h.dist)))
  {
    var ds := Distances(sqrt, objs, r, org);
    var h := Nearest(ds, prev);
    h
  }

  /**
    Whether a trace hits, and which object at which distance, does not
    depend on the previous object: `gObje` only survives a miss.
   */
  lemma RaytraceIgnoresPrev(sqrt: real -> real, objs: seq<Obj>, r: Vec3, org: Vec3, p1: nat, p2: nat)
    requires forall i :: 0 <= i < |objs| ==> Shaped(objs[i])
    ensures Raytrace(sqrt, objs, r, org, p1).intersect == Raytrace(sqrt, objs, r, org, p2).intersect
    ensures Raytrace(sqrt, objs, r, org, p1).intersect ==> Raytrace(sqrt, objs, r, org, p1) == Raytrace(sqrt, objs, r, org, p2)
  {
    var h1, h2 := Raytrace(sqrt, objs, r, org, p1), Raytrace(sqrt, objs, r, org, p2);
    if h1.intersect {
      assert h1.obj <= h2.obj;
      assert h2.obj <= h1.obj;
    }
  }

  /** A trace through an empty scene is the default intersection record: a miss at the sentinel. */
  lemma EmptySceneMisses(sqrt: real -> real, r: Vec3, org: Vec3, prev: nat)
    ensures Raytrace(sqrt, [], r, org, prev) == Hit(false, NotIntersected, prev)
  {
  }

  /** Whether `surfaceNormal` is defined at `p`: away from a sphere's centre, off a plane. */
  predicate NormalDefined(o: Obj, p: Vec3, inside: Vec3)
  {
    match o.kind
    case Sphere => p != Center(o)
    case Plane => ValidAxis(o) && At(inside, Axis(o)) != PlaneOffset(o)
    case Triangle => true
  }

  /**
    calcSphereNormal: the unit vector from the centre toward `p`. Scaled by
    the distance from the centre it gives back `p - centre`.
   */
  function SphereNormal(sqrt: real -> real, o: Obj, p: Vec3): (n: Vec3)
    requires IsSqrt(sqrt)
    requires p != Center(o)
    ensures Dot(n, n) == 1.0
    ensures Scale(n, Distance(sqrt, p, Center(o))) == Sub(p, Center(o))
  {
    assert Sub(p, Center(o)) != Zero by {
      assert Add(Sub(p, Center(o)), Center(o)) == p;
    }
    Normalize(sqrt, Sub(p, Center(o)))
  }

  /**
    surfaceNormal: a unit normal for spheres and planes (pointing from a
    plane toward `inside`), the zero vector for any other type.
   */
  function SurfaceNormal(sqrt: real -> real, o: Obj, p: Vec3, inside: Vec3): (n: Vec3)
    requires IsSqrt(sqrt)
    requires NormalDefined(o, p, inside)
    ensures o.kind == Triangle <==> n == Zero
    ensures o.kind != Triangle ==> Dot(n, n) == 1.0
  {
    match o.kind
    case Sphere => SphereNormal(sqrt, o, p)
    case Plane =>
      var n := PlaneNormal(sqrt, o, p, inside);
      PlaneNormalUnit(sqrt, o, p, inside);
      n
    case Triangle => Zero
  }

  /** A plane's normal is one of the six axis unit vectors, so its length is one. */
  lemma PlaneNormalUnit(sqrt: real -> real, o: Obj, p: Vec3, inside: Vec3)
    requires IsSqrt(sqrt)
    requires ValidAxis(o) && At(inside, Axis(o)) != PlaneOffset(o)
    ensures Dot(PlaneNormal(sqrt, o, p, inside), PlaneNormal(sqrt, o, p, inside)) == 1.0
  {
    var n := PlaneNormal(sqrt, o, p, inside);
    var a := Axis(o);
    assert At(n, a) == 1.0 || At(n, a) == -1.0;
    assert forall i :: 0 <= i < 3 && i != a ==> At(n, i) == 0.0;
    if a == 0 {
      assert n.y == 0.0 && n.z == 0.0;
    } else if a == 1 {
      assert n.x == 0.0 && n.z == 0.0;
    } else {
      assert n.x == 0.0 && n.y == 0.0;
    }
  }
}
