/**
  The photon map: one bucket of photon records per scene object, filled by
  `emitPhotons` (through `storePhoton` and `shadowPhoton`) and read back by
  `gatherPhotons`.

  Each bucket is a fixed array of 5000 slots with a count of the slots in
  use; records are only ever appended. Emission is modelled without its
  randomness: the direction and start point of each photon are inputs,
  and the reflection of a ray off a surface is a parameter.
 */
module Photons {
  import opened Vector3
  import opened Objects
  import opened Scene

  const MaxObjects: nat := 64
  const BucketCapacity: nat := 5000

  /** The energy of a shadow photon: it darkens the surface it lands on. */
  const ShadowEnergy: Vec3 := Vec3(-0.25, -0.25, -0.25)

  /** How far past a hit the shadow ray starts, so that it does not hit the same point again. */
  const ShadowBump: real := 0.00001

  /** The world origin, the reference point for the normals used in gathering. */
  const Origin: Vec3 := Vec3(0.0, 0.0, 0.0)

  datatype Photon = Photon(location: Vec3, direction: Vec3, energy: Vec3)

  /** `counts[b]` slots of bucket `b` are in use; the rest hold whatever was there before. */
  datatype PhotonMap = PhotonMap(counts: seq<int>, slots: seq<seq<Photon>>)

  predicate ValidMap(pm: PhotonMap)
  {
    |pm.counts| == MaxObjects && |pm.slots| == MaxObjects
    && (forall b :: 0 <= b < MaxObjects ==> |pm.slots[b]| == BucketCapacity)
    && (forall b :: 0 <= b < MaxObjects ==> 0 <= pm.counts[b] <= BucketCapacity)
  }

  /** The records of bucket `b`, in the order they were stored. */
  function Live(pm: PhotonMap, b: int): seq<Photon>
    requires ValidMap(pm) && 0 <= b < MaxObjects
  {
    pm.slots[b][..pm.counts[b]]
  }

  /** `pm2` holds every record of `pm`, in the same slots, and possibly more after them. */
  ghost predicate Extends(pm: PhotonMap, pm2: PhotonMap)
  {
    ValidMap(pm) && ValidMap(pm2)
    && forall b :: 0 <= b < MaxObjects ==>
      pm.counts[b] <= pm2.counts[b] && Live(pm, b) == Live(pm2, b)[..pm.counts[b]]
  }

  lemma ExtendsTransitive(pm1: PhotonMap, pm2: PhotonMap, pm3: PhotonMap)
    requires Extends(pm1, pm2) && Extends(pm2, pm3)
    ensures Extends(pm1, pm3)
  {
    forall b | 0 <= b < MaxObjects
      ensures Live(pm1, b) == Live(pm3, b)[..pm1.counts[b]]
    {
      assert Live(pm2, b) == Live(pm3, b)[..pm2.counts[b]];
    }
  }

  lemma ExtendsReflexive(pm: PhotonMap)
    requires ValidMap(pm)
    ensures Extends(pm, pm)
  {
    forall b | 0 <= b < MaxObjects
      ensures Live(pm, b) == Live(pm, b)[..pm.counts[b]]
    {
    }
  }

  // ---------------------------------------------------------------------
  // Counting
  // ---------------------------------------------------------------------

  function Sum(s: seq<int>): int
  {
    if |s| == 0 then 0 else Sum(s[..|s| - 1]) + s[|s| - 1]
  }

  /** Raising one entry by one raises the sum by one. */
  lemma {:induction false} SumIncrement(s: seq<int>, i: int)
    requires 0 <= i < |s|
    ensures Sum(s[i := s[i] + 1]) == Sum(s) + 1
    decreases |s|
  {
    var t := s[i := s[i] + 1];
    if i < |s| - 1 {
      assert t[..|t| - 1] == s[..|s| - 1][i := s[i] + 1];
      SumIncrement(s[..|s| - 1], i);
    } else {
      assert t[..|t| - 1] == s[..|s| - 1];
    }
  }

  /** Every entry of a sequence of non-negative numbers is at most their sum. */
  lemma {:induction false} EntryAtMostSum(s: seq<int>, i: int)
    requires 0 <= i < |s|
    requires forall j :: 0 <= j < |s| ==> s[j] >= 0
    ensures 0 <= s[i] <= Sum(s)
    decreases |s|
  {
    SumNonNegative(s[..|s| - 1]);
    if i < |s| - 1 {
      EntryAtMostSum(s[..|s| - 1], i);
    }
  }

  lemma {:induction false} SumNonNegative(s: seq<int>)
    requires forall j :: 0 <= j < |s| ==> s[j] >= 0
    ensures Sum(s) >= 0
    decreases |s|
  {
    if |s| > 0 {
      SumNonNegative(s[..|s| - 1]);
    }
  }

  lemma {:induction false} SumOfZeros(s: seq<int>)
    requires forall j :: 0 <= j < |s| ==> s[j] == 0
    ensures Sum(s) == 0
    decreases |s|
  {
    if |s| > 0 {
      SumOfZeros(s[..|s| - 1]);
    }
  }

  /** The number of records in the first `n` buckets. */
  function TotalBelow(pm: PhotonMap, n: int): int
    requires ValidMap(pm) && 0 <= n <= MaxObjects
  {
    Sum(pm.counts[..n])
  }

  // ---------------------------------------------------------------------
  // Storing
  // ---------------------------------------------------------------------

  /**
    storePhoton: the record goes into the first free slot of the bucket of
    `ob`, and that bucket's count goes up by one. Nothing else changes. The
    source has no capacity check; a full bucket would be written past its
    end, so the caller must leave room.
   */
  function StorePhoton(pm: PhotonMap, ob: Obj, ph: Photon): (r: PhotonMap)
    requires ValidMap(pm) && 0 <= ob.index < MaxObjects
    requires pm.counts[ob.index] < BucketCapacity
    ensures ValidMap(r)
    ensures r.counts[ob.index] == pm.counts[ob.index] + 1
    ensures Live(r, ob.index) == Live(pm, ob.index) + [ph]
    ensures forall b :: 0 <= b < MaxObjects && b != ob.index ==>
      r.counts[b] == pm.counts[b] && r.slots[b] == pm.slots[b]
    ensures forall k :: 0 <= k < BucketCapacity && k != pm.counts[ob.index] ==>
      r.slots[ob.index][k] == pm.slots[ob.index][k]
    ensures Extends(pm, r)
  {
    var id := ob.index;
    var k := pm.counts[id];
    var r := PhotonMap(pm.counts[id := k + 1], pm.slots[id := pm.slots[id][k := ph]]);
    assert Live(r, id) == Live(pm, id) + [ph];
    assert forall b :: 0 <= b < MaxObjects && b != id ==> Live(r, b) == Live(pm, b);
    r
  }

  /** Storing into one of the first `n` buckets adds exactly one record to them. */
  lemma StoreCounts(pm: PhotonMap, ob: Obj, ph: Photon, n: int)
    requires ValidMap(pm) && 0 <= ob.index < n <= MaxObjects
    requires pm.counts[ob.index] < BucketCapacity
    ensures TotalBelow(StorePhoton(pm, ob, ph), n) == TotalBelow(pm, n) + 1
    ensures forall b :: n <= b < MaxObjects ==> StorePhoton(pm, ob, ph).counts[b] == pm.counts[b]
  {
    var r := StorePhoton(pm, ob, ph);
    var id := ob.index;
    assert r.counts == pm.counts[id := pm.counts[id] + 1];
    assert r.counts[..n] == pm.counts[..n][id := pm.counts[id] + 1];
    SumIncrement(pm.counts[..n], id);
  }

  /** A bucket's count is at most the number of records in the first `n` buckets. */
  lemma CountAtMostTotal(pm: PhotonMap, b: int, n: int)
    requires ValidMap(pm) && 0 <= b < n <= MaxObjects
    ensures 0 <= pm.counts[b] <= TotalBelow(pm, n)
  {
    EntryAtMostSum(pm.counts[..n], b);
  }

  /**
    The reset at the start of emitPhotons: the counts of the first `n`
    buckets become zero. The old records stay in their slots but are no
    longer live; buckets from `n` on are untouched.
   */
  function ClearCounts(pm: PhotonMap, n: int): (r: PhotonMap)
    requires ValidMap(pm) && 0 <= n <= MaxObjects
    ensures ValidMap(r) && r.slots == pm.slots
    ensures forall b :: 0 <= b < n ==> r.counts[b] == 0 && Live(r, b) == []
    ensures forall b :: n <= b < MaxObjects ==> r.counts[b] == pm.counts[b]
    ensures TotalBelow(r, n) == 0
  {
    var r := PhotonMap(seq(MaxObjects, b requires 0 <= b < MaxObjects => if b < n then 0 else pm.counts[b]), pm.slots);
    SumOfZeros(r.counts[..n]);
    r
  }

  // ---------------------------------------------------------------------
  // Emission
  // ---------------------------------------------------------------------

  /** mulColor: the colour of a photon after it is filtered by an object's colour. */
  function MulColor(rgb: Vec3, ob: Obj): (c: Vec3)
    ensures forall i :: 0 <= i < 3 ==> At(c, i) == At(ob.color, i) * At(rgb, i)
  {
    MulComponents(ob.color, rgb)
  }

  /** A white object passes light through unchanged; a black one absorbs it. */
  lemma MulColorWhite(rgb: Vec3, ob: Obj)
    ensures ob.color == White ==> MulColor(rgb, ob) == rgb
    ensures ob.color == Zero ==> MulColor(rgb, ob) == Zero
  {
  }

  /** A shadow record: the bucket (by object position) it goes to, and the record. */
  datatype Shadow = Shadow(target: nat, record: Photon)

  /**
    shadowPhoton: trace on from just past the hit point. The shadow record
    goes to the object the trace finds, at the point where it finds it.
    The store is unconditional: when the trace finds nothing, `gObje` still
    names the current object, so the record goes to the current object's
    bucket, one million units along the ray.
   */
  function ShadowPhoton(sqrt: real -> real, objs: seq<Obj>, point: Vec3, ray: Vec3, current: nat): (s: Shadow)
    requires forall i :: 0 <= i < |objs| ==> Shaped(objs[i])
    requires current < |objs|
    ensures s.target < |objs|
    ensures s.record.direction == ray && s.record.energy == ShadowEnergy
    ensures Raytrace(sqrt, objs, ray, Add(point, Scale(ray, ShadowBump)), current).intersect ==>
      s.target == Raytrace(sqrt, objs, ray, Add(point, Scale(ray, ShadowBump)), current).obj
    ensures !Raytrace(sqrt, objs, ray, Add(point, Scale(ray, ShadowBump)), current).intersect ==>
      s.target == current
      && s.record.location == Add(Add(point, Scale(ray, ShadowBump)), Scale(ray, NotIntersected))
  {
    var bumped := Add(point, Scale(ray, ShadowBump));
    var h := Raytrace(sqrt, objs, ray, bumped, current);
    Shadow(h.obj, Photon(Add(bumped, Scale(ray, h.dist)), ray, ShadowEnergy))
  }

  /** The outcome of emission: the photon map and the object `gObje` names, or the bucket that overflowed. */
  datatype Emission = Emitted(pm: PhotonMap, current: nat) | Overflow(bucket: int)

  predicate Even(k: int)
  {
    k % 2 == 0
  }

  lemma EvenPlusTwo(k: int)
    requires Even(k)
    ensures Even(k + 2)
  {
  }

  lemma EvenSum(j: int, k: int)
    requires Even(j) && Even(k)
    ensures Even(j + k)
  {
  }

  /**
    `pm2` is `pm` with records added within `budget`: the earlier records
    are kept, an even number of new ones, at most `budget`, are in the
    scene's first `n` buckets, and no other bucket's count changes.
   */
  ghost predicate Grew(pm: PhotonMap, pm2: PhotonMap, n: int, budget: int)
  {
    0 <= n <= MaxObjects
    && Extends(pm, pm2)
    && Even(TotalBelow(pm2, n) - TotalBelow(pm, n))
    && TotalBelow(pm, n) <= TotalBelow(pm2, n) <= TotalBelow(pm, n) + budget
    && forall b :: n <= b < MaxObjects ==> pm2.counts[b] == pm.counts[b]
  }

  /**
    What an emission step allowed `budget` records guarantees: on success
    the map grew within the budget; on overflow the full bucket is one of
    the scene's; and there is no overflow when the budget fits in a bucket.
   */
  ghost predicate Emits(pm: PhotonMap, e: Emission, n: int, budget: int)
  {
    ValidMap(pm) && 0 <= n <= MaxObjects
    && (e.Emitted? ==> Grew(pm, e.pm, n, budget))
    && (e.Overflow? ==> 0 <= e.bucket < n)
    && (TotalBelow(pm, n) + budget <= BucketCapacity ==> e.Emitted?)
  }

  /** A map has grown from itself within any budget. */
  lemma GrewNothing(pm: PhotonMap, n: int, budget: int)
    requires ValidMap(pm) && 0 <= n <= MaxObjects && 0 <= budget
    ensures Grew(pm, pm, n, budget)
  {
    ExtendsReflexive(pm);
  }

  /** Growth within `b1` followed by growth within `b2` is growth within their sum. */
  lemma GrewChain(pm: PhotonMap, pm1: PhotonMap, pm2: PhotonMap, n: int, b1: int, b2: int, total: int)
    requires Grew(pm, pm1, n, b1) && Grew(pm1, pm2, n, b2) && total == b1 + b2
    ensures Grew(pm, pm2, n, total)
  {
    ExtendsTransitive(pm, pm1, pm2);
    var t0, t1, t2 := TotalBelow(pm, n), TotalBelow(pm1, n), TotalBelow(pm2, n);
    EvenSum(t1 - t0, t2 - t1);
    assert t2 - t0 == (t1 - t0) + (t2 - t1);
  }

  /** One pass of the bounce loop: two more records, after growth within `spent`. */
  lemma GrewByPass(pm: PhotonMap, pm1: PhotonMap, pm2: PhotonMap, n: int, spent: int)
    requires Grew(pm, pm1, n, spent)
    requires Extends(pm1, pm2) && TotalBelow(pm2, n) == TotalBelow(pm1, n) + 2
    requires forall b :: n <= b < MaxObjects ==> pm2.counts[b] == pm1.counts[b]
    ensures Grew(pm, pm2, n, spent + 2)
  {
    ExtendsTransitive(pm, pm1, pm2);
    EvenPlusTwo(TotalBelow(pm1, n) - TotalBelow(pm, n));
  }

  /**
    An overflow in a pass that still had two records of room in the budget
    only happens when the budget does not fit in the bucket.
   */
  lemma OverflowWithinBudget(pm: PhotonMap, pm1: PhotonMap, e: Emission, n: int, spent: int, budget: int)
    requires ValidMap(pm) && Grew(pm, pm1, n, spent) && spent + 2 <= budget
    requires e.Overflow? && 0 <= e.bucket < n
    requires TotalBelow(pm1, n) + 2 > BucketCapacity
    ensures Emits(pm, e, n, budget)
  {
  }

  /** How the bounce loop ends without overflow: the grown map, within the budget. */
  lemma EmittedWithinBudget(pm: PhotonMap, pm1: PhotonMap, current: nat, n: int, spent: int, budget: int)
    requires ValidMap(pm) && Grew(pm, pm1, n, spent) && spent <= budget
    ensures Emits(pm, Emitted(pm1, current), n, budget)
  {
  }

  /** The state one pass of the bounce loop leaves: the stores, and the photon's new path. */
  datatype Pass = Pass(stored: Emission, point: Vec3, ray: Vec3, next: Hit, rgb: Vec3)

  /**
    The body of the bounce loop: the photon reaches the hit point with its
    colour filtered by the object and dimmed by 1/sqrt(bounces); the photon
    record goes to the hit object's bucket and the shadow record to the
    bucket of whatever the shadow ray finds; the photon is reflected and
    traced on from the hit point.
   */
  method OnePass(
    sqrt: real -> real, reflect: (Obj, Vec3, Vec3, Vec3) -> Vec3, objs: seq<Obj>,
    pm: PhotonMap, ray: Vec3, prevPoint: Vec3, hit: Hit, rgb: Vec3, bounces: nat) returns (p: Pass)
    requires IsSqrt(sqrt) && SceneWellFormed(objs) && ValidMap(pm)
    requires bounces >= 1 && hit.intersect && hit.obj < |objs|
    ensures p.stored.Emitted? ==> Extends(pm, p.stored.pm)
    ensures p.stored.Emitted? ==> TotalBelow(p.stored.pm, |objs|) == TotalBelow(pm, |objs|) + 2
    ensures p.stored.Emitted? ==> forall b :: |objs| <= b < MaxObjects ==> p.stored.pm.counts[b] == pm.counts[b]
    ensures p.stored.Overflow? ==> 0 <= p.stored.bucket < |objs|
    ensures TotalBelow(pm, |objs|) + 2 <= BucketCapacity ==> p.stored.Emitted?
    ensures p.point == Add(Scale(ray, hit.dist), prevPoint)
    ensures p.rgb == Scale(MulColor(rgb, objs[hit.obj]), 1.0 / PositiveSqrt(sqrt, bounces))
    ensures p.stored.Emitted? ==>
      p.stored.current == hit.obj
      && StoredPair(pm, p.stored.pm, hit.obj, Photon(p.point, ray, p.rgb),
        ShadowPhoton(sqrt, objs, p.point, ray, hit.obj).target, ShadowPhoton(sqrt, objs, p.point, ray, hit.obj).record)
    ensures p.ray == reflect(objs[hit.obj], p.point, ray, prevPoint)
    ensures p.next == Raytrace(sqrt, objs, p.ray, p.point, hit.obj)
    ensures p.next.intersect ==> p.next.obj < |objs|
  {
    var point := Add(Scale(ray, hit.dist), prevPoint);
    var lit := Scale(MulColor(rgb, objs[hit.obj]), 1.0 / PositiveSqrt(sqrt, bounces));
    var st := StoreHitAndShadow(sqrt, objs, pm, point, ray, lit, hit.obj);
    var ray2 := reflect(objs[hit.obj], point, ray, prevPoint);
    var next := Raytrace(sqrt, objs, ray2, point, hit.obj);
    p := Pass(st, point, ray2, next, lit);
  }

  /**
    `pm2` is `pm` after storing `hitRec` in bucket `hb` and then
    `shadowRec` in bucket `sb`: each record lands after its bucket's
    earlier records (both in the one bucket, hit record first, when
    `hb == sb`), and every other bucket keeps its records and its count.
   */
  predicate StoredPair(pm: PhotonMap, pm2: PhotonMap, hb: int, hitRec: Photon, sb: int, shadowRec: Photon)
  {
    ValidMap(pm) && ValidMap(pm2) && 0 <= hb < MaxObjects && 0 <= sb < MaxObjects
    && (hb == sb ==> Live(pm2, hb) == Live(pm, hb) + [hitRec, shadowRec])
    && (hb != sb ==> Live(pm2, hb) == Live(pm, hb) + [hitRec] && Live(pm2, sb) == Live(pm, sb) + [shadowRec])
    && forall b :: 0 <= b < MaxObjects && b != hb && b != sb ==>
      pm2.counts[b] == pm.counts[b] && Live(pm2, b) == Live(pm, b)
  }

  /**
    One pass of the bounce loop's stores: the photon record at the hit
    point into the hit object's bucket, then the shadow record (at the
    point the shadow ray finds) into the bucket of the object it finds,
    which on a miss is the hit object again. Exactly two records are
    added, both to the scene's buckets. A full bucket is reported as the
    overflow.
   */
  method StoreHitAndShadow(
    sqrt: real -> real, objs: seq<Obj>, pm: PhotonMap, point: Vec3, ray: Vec3, lit: Vec3, current: nat) returns (e: Emission)
    requires SceneWellFormed(objs) && ValidMap(pm) && current < |objs|
    ensures e.Emitted? ==> Extends(pm, e.pm) && e.current == current
    ensures e.Emitted? ==>
      StoredPair(pm, e.pm, current, Photon(point, ray, lit),
        ShadowPhoton(sqrt, objs, point, ray, current).target, ShadowPhoton(sqrt, objs, point, ray, current).record)
    ensures e.Emitted? ==> TotalBelow(e.pm, |objs|) == TotalBelow(pm, |objs|) + 2
    ensures e.Emitted? ==> forall b :: |objs| <= b < MaxObjects ==> e.pm.counts[b] == pm.counts[b]
    ensures e.Overflow? ==> 0 <= e.bucket < |objs|
    ensures e.Overflow? ==> e.bucket == current || e.bucket == ShadowPhoton(sqrt, objs, point, ray, current).target
    ensures TotalBelow(pm, |objs|) + 2 <= BucketCapacity ==> e.Emitted?
  {
    var n := |objs|;
    var ob := objs[current];
    CountAtMostTotal(pm, ob.index, n);
    if pm.counts[ob.index] >= BucketCapacity {
      return Overflow(ob.index);
    }
    var hitRec := Photon(point, ray, lit);
    var pm1 := StorePhoton(pm, ob, hitRec);
    StoreCounts(pm, ob, hitRec, n);
    var sh := ShadowPhoton(sqrt, objs, point, ray, current);
    var sob := objs[sh.target];
    CountAtMostTotal(pm1, sob.index, n);
    if pm1.counts[sob.index] >= BucketCapacity {
      return Overflow(sob.index);
    }
    var pm2 := StorePhoton(pm1, sob, sh.record);
    StoreCounts(pm1, sob, sh.record, n);
    ExtendsTransitive(pm, pm1, pm2);
    StoredPairOfStores(pm, pm1, pm2, current, hitRec, sh.target, sh.record);
    e := Emitted(pm2, current);
  }

  /** Two appends in a row, as StorePhoton makes them, are a `StoredPair`. */
  lemma StoredPairOfStores(pm: PhotonMap, pm1: PhotonMap, pm2: PhotonMap, hb: int, hitRec: Photon, sb: int, shadowRec: Photon)
    requires ValidMap(pm) && ValidMap(pm1) && ValidMap(pm2) && 0 <= hb < MaxObjects && 0 <= sb < MaxObjects
    requires Live(pm1, hb) == Live(pm, hb) + [hitRec]
    requires forall b :: 0 <= b < MaxObjects && b != hb ==> pm1.counts[b] == pm.counts[b] && pm1.slots[b] == pm.slots[b]
    requires Live(pm2, sb) == Live(pm1, sb) + [shadowRec]
    requires forall b :: 0 <= b < MaxObjects && b != sb ==> pm2.counts[b] == pm1.counts[b] && pm2.slots[b] == pm1.slots[b]
    ensures StoredPair(pm, pm2, hb, hitRec, sb, shadowRec)
  {
    if hb == sb {
      assert Live(pm, hb) + [hitRec] + [shadowRec] == Live(pm, hb) + [hitRec, shadowRec];
    } else {
      assert Live(pm2, hb) == Live(pm1, hb);
      assert Live(pm1, sb) == Live(pm, sb);
    }
    forall b | 0 <= b < MaxObjects && b != hb && b != sb
      ensures pm2.counts[b] == pm.counts[b] && Live(pm2, b) == Live(pm, b)
    {
      assert Live(pm2, b) == Live(pm1, b);
    }
  }

  /** `sqrt(b)` for a bounce number `b >= 1`: positive, so `1/sqrt(b)` is defined. */
  function PositiveSqrt(sqrt: real -> real, b: nat): (s: real)
    requires IsSqrt(sqrt) && b >= 1
    ensures s > 0.0 && s * s == b as real
  {
    SqrtPositive(sqrt, b as real);
    sqrt(b as real)
  }

  /** A photon's start point and direction, as the random sampling would produce them. */
  datatype Sample = Sample(direction: Vec3, origin: Vec3)

  /**
    The start point is usable: inside the room's x and y bounds and not
    inside any sphere. A photon starting elsewhere is marked as already
    past its last bounce.
   */
  predicate StartValid(sqrt: real -> real, objs: seq<Obj>, origin: Vec3)
  {
    !(Abs(origin.x) > 1.5 || Abs(origin.y) > 1.2)
    && forall i :: 0 <= i < |objs| && objs[i].kind == Sphere ==>
      !(Distance(sqrt, origin, Center(objs[i])) < Radius(objs[i]))
  }

  /**
    One photon of emitPhotons: check the start, trace, and run the bounce
    loop while the trace hits and bounces remain. Each pass stores two
    records, so a photon adds an even number of records, at most two per
    bounce. Where the source would write past a full bucket the model
    stops with `Overflow`; that never happens when all `2 nrBounces`
    records fit. A photon with an invalid start stores nothing; otherwise
    it stores exactly two records per pass of `PhotonPasses`.
   */
  method EmitOne(
    sqrt: real -> real, reflect: (Obj, Vec3, Vec3, Vec3) -> Vec3,
    objs: seq<Obj>, nrBounces: nat, pm: PhotonMap, sample: Sample, current: nat) returns (e: Emission)
    requires IsSqrt(sqrt) && SceneWellFormed(objs) && ValidMap(pm)
    ensures Emits(pm, e, |objs|, 2 * nrBounces)
    ensures !StartValid(sqrt, objs, sample.origin) ==> e.Emitted? && e.pm == pm
    ensures e.Emitted? ==>
      TotalBelow(e.pm, |objs|) == TotalBelow(pm, |objs|) + 2 * PhotonPasses(sqrt, reflect, objs, nrBounces, sample)
  {
    var bounces: nat := if StartValid(sqrt, objs, sample.origin) then 1 else nrBounces + 1;
    var hit := Raytrace(sqrt, objs, sample.direction, sample.origin, current);
    FirstPath(sqrt, reflect, objs, nrBounces, sample, current);
    e := FollowPhoton(sqrt, reflect, objs, nrBounces, pm, sample.direction, sample.origin, hit, bounces);
  }

  /**
    The bounce loop of one photon, from its first trace `hit` at bounce
    number `bounces0`: two records per pass of its path, within the
    photon's budget; with no bounce left nothing is stored.
   */
  method FollowPhoton(
    sqrt: real -> real, reflect: (Obj, Vec3, Vec3, Vec3) -> Vec3, objs: seq<Obj>, nrBounces: nat,
    pm: PhotonMap, ray0: Vec3, origin: Vec3, hit0: Hit, bounces0: nat) returns (e: Emission)
    requires IsSqrt(sqrt) && SceneWellFormed(objs) && ValidMap(pm)
    requires 1 <= bounces0 <= nrBounces + 1 && (hit0.intersect ==> hit0.obj < |objs|)
    ensures Emits(pm, e, |objs|, 2 * nrBounces)
    ensures bounces0 == nrBounces + 1 ==> e.Emitted? && e.pm == pm
    ensures e.Emitted? ==>
      TotalBelow(e.pm, |objs|) == TotalBelow(pm, |objs|) + 2 * PathLength(sqrt, reflect, objs, ray0, origin, hit0, bounces0, nrBounces)
  {
    var n := |objs|;
    var bounces := bounces0;
    var ray, prevPoint, hit, rgb := ray0, origin, hit0, White;
    var cur := pm;
    GrewNothing(pm, n, 2 * (bounces - 1));
    while hit.intersect && bounces <= nrBounces
      invariant bounces0 <= bounces <= nrBounces + 1
      invariant ValidMap(cur) && (hit.intersect ==> hit.obj < n)
      invariant Grew(pm, cur, n, 2 * (bounces - 1))
      invariant bounces0 == nrBounces + 1 ==> cur == pm
      invariant TotalBelow(cur, n) + 2 * PathLength(sqrt, reflect, objs, ray, prevPoint, hit, bounces, nrBounces)
        == TotalBelow(pm, n) + 2 * PathLength(sqrt, reflect, objs, ray0, origin, hit0, bounces0, nrBounces)
      decreases nrBounces + 1 - bounces
    {
      var p := BounceStep(sqrt, reflect, objs, nrBounces, pm, cur, ray, prevPoint, hit, rgb, bounces);
      if p.stored.Overflow? {
        return p.stored;
      }
      cur, ray, prevPoint, hit, rgb := p.stored.pm, p.ray, p.point, p.next, p.rgb;
      bounces := bounces + 1;
    }
    e := Emitted(cur, hit.obj);
    EmittedWithinBudget(pm, cur, hit.obj, n, 2 * (bounces - 1), 2 * nrBounces);
  }

  /**
    One pass of the bounce loop as the photon's budget sees it: the pass
    stores its two records, so the photon's records still number at most
    two per pass, and an overflow only happens where the whole budget
    would not fit; the photon moves on along its path.
   */
  method BounceStep(
    sqrt: real -> real, reflect: (Obj, Vec3, Vec3, Vec3) -> Vec3, objs: seq<Obj>, nrBounces: nat,
    pm: PhotonMap, cur: PhotonMap, ray: Vec3, prevPoint: Vec3, hit: Hit, rgb: Vec3, bounces: nat) returns (p: Pass)
    requires IsSqrt(sqrt) && SceneWellFormed(objs) && ValidMap(pm) && ValidMap(cur)
    requires 1 <= bounces <= nrBounces && hit.intersect && hit.obj < |objs|
    requires Grew(pm, cur, |objs|, 2 * (bounces - 1))
    ensures p.stored.Overflow? ==> Emits(pm, p.stored, |objs|, 2 * nrBounces)
    ensures p.stored.Emitted? ==> ValidMap(p.stored.pm) && Grew(pm, p.stored.pm, |objs|, 2 * bounces)
    ensures p.stored.Emitted? ==> TotalBelow(p.stored.pm, |objs|) == TotalBelow(cur, |objs|) + 2
    ensures p.stored.Emitted? ==>
      StoredPair(cur, p.stored.pm, hit.obj, Photon(p.point, ray, p.rgb),
        ShadowPhoton(sqrt, objs, p.point, ray, hit.obj).target, ShadowPhoton(sqrt, objs, p.point, ray, hit.obj).record)
    ensures p.point == Add(Scale(ray, hit.dist), prevPoint)
    ensures p.ray == reflect(objs[hit.obj], p.point, ray, prevPoint)
    ensures p.next == Raytrace(sqrt, objs, p.ray, p.point, hit.obj)
    ensures p.next.intersect ==> p.next.obj < |objs|
    ensures p.stored.Emitted? ==>
      TotalBelow(p.stored.pm, |objs|) + 2 * PathLength(sqrt, reflect, objs, p.ray, p.point, p.next, bounces + 1, nrBounces)
      == TotalBelow(cur, |objs|) + 2 * PathLength(sqrt, reflect, objs, ray, prevPoint, hit, bounces, nrBounces)
  {
    p := OnePass(sqrt, reflect, objs, cur, ray, prevPoint, hit, rgb, bounces);
    if p.stored.Overflow? {
      OverflowWithinBudget(pm, cur, p.stored, |objs|, 2 * (bounces - 1), 2 * nrBounces);
    } else {
      GrewByPass(pm, cur, p.stored.pm, |objs|, 2 * (bounces - 1));
    }
  }

  /**
    The photon's path as the bounce loop follows it, without the stores:
    the number of passes the loop makes from a trace result `hit` at
    bounce number `bounces`. Each pass moves to the hit point, reflects
    the ray there and traces on from it, until a trace misses or the
    bounces run out.
   */
  function PathLength(
    sqrt: real -> real, reflect: (Obj, Vec3, Vec3, Vec3) -> Vec3, objs: seq<Obj>,
    ray: Vec3, prevPoint: Vec3, hit: Hit, bounces: nat, nrBounces: nat): (k: nat)
    requires SceneWellFormed(objs) && (hit.intersect ==> hit.obj < |objs|)
    ensures bounces <= nrBounces + 1 ==> bounces + k <= nrBounces + 1
    ensures k >= 1 <==> hit.intersect && bounces <= nrBounces
    decreases nrBounces + 1 - bounces
  {
    if hit.intersect && bounces <= nrBounces then
      var point := Add(Scale(ray, hit.dist), prevPoint);
      var ray2 := reflect(objs[hit.obj], point, ray, prevPoint);
      1 + PathLength(sqrt, reflect, objs, ray2, point, Raytrace(sqrt, objs, ray2, point, hit.obj), bounces + 1, nrBounces)
    else 0
  }

  /**
    The number of bounce-loop passes one photon makes: none from an
    invalid start, otherwise its path from the first trace. It is at most
    nrBounces, and at least one exactly when the start is valid, a bounce
    is allowed and the first trace hits. The first trace's object does not
    depend on `gObje`, so the previous object is not an argument.
   */
  function PhotonPasses(
    sqrt: real -> real, reflect: (Obj, Vec3, Vec3, Vec3) -> Vec3, objs: seq<Obj>, nrBounces: nat, sample: Sample): (k: nat)
    requires SceneWellFormed(objs)
    ensures k <= nrBounces
    ensures k >= 1 <==>
      StartValid(sqrt, objs, sample.origin) && nrBounces >= 1 && Raytrace(sqrt, objs, sample.direction, sample.origin, 0).intersect
  {
    if StartValid(sqrt, objs, sample.origin) then
      PathLength(sqrt, reflect, objs, sample.direction, sample.origin,
        Raytrace(sqrt, objs, sample.direction, sample.origin, 0), 1, nrBounces)
    else 0
  }

  /** The passes left at the head of the bounce loop, before the first pass, are all of the photon's passes. */
  lemma FirstPath(
    sqrt: real -> real, reflect: (Obj, Vec3, Vec3, Vec3) -> Vec3, objs: seq<Obj>, nrBounces: nat, sample: Sample, current: nat)
    requires SceneWellFormed(objs)
    ensures PathLength(sqrt, reflect, objs, sample.direction, sample.origin,
      Raytrace(sqrt, objs, sample.direction, sample.origin, current),
      if StartValid(sqrt, objs, sample.origin) then 1 else nrBounces + 1, nrBounces)
      == PhotonPasses(sqrt, reflect, objs, nrBounces, sample)
  {
    RaytraceIgnoresPrev(sqrt, objs, sample.direction, sample.origin, current, 0);
  }

  /** The bounce-loop passes of a list of photons, added up. */
  function TotalPasses(
    sqrt: real -> real, reflect: (Obj, Vec3, Vec3, Vec3) -> Vec3, objs: seq<Obj>, nrBounces: nat, samples: seq<Sample>): nat
    requires SceneWellFormed(objs)
    decreases |samples|
  {
    if |samples| == 0 then 0
    else
      var front := TotalPasses(sqrt, reflect, objs, nrBounces, samples[..|samples| - 1]);
      front + PhotonPasses(sqrt, reflect, objs, nrBounces, samples[|samples| - 1])
  }

  /** The number of photons emitted: three times as many for the 3D view. */
  function PhotonCount(view3D: bool, nrPhotons: nat): nat
  {
    if view3D then nrPhotons * 3 else nrPhotons
  }

  /** The most records `m` photons can store: two per bounce each. */
  function Budget(nrBounces: nat, m: nat): nat
  {
    if m == 0 then 0 else 2 * nrBounces + Budget(nrBounces, m - 1)
  }

  lemma {:induction false} BudgetIsProduct(nrBounces: nat, m: nat)
    ensures Budget(nrBounces, m) == 2 * nrBounces * m
  {
    if m > 0 {
      BudgetIsProduct(nrBounces, m - 1);
      assert 2 * nrBounces * m == 2 * nrBounces + 2 * nrBounces * (m - 1);
    }
  }

  lemma {:induction false} BudgetMonotone(nrBounces: nat, i: nat, j: nat)
    requires i <= j
    ensures Budget(nrBounces, i) <= Budget(nrBounces, j)
    decreases j
  {
    if i < j {
      BudgetMonotone(nrBounces, i, j - 1);
    }
  }

  /**
    emitPhotons: clear the counts of the scene's buckets, then emit one
    photon per sample, threading the photon map and `gObje`. All records
    are in the scene's buckets; their number is even and at most
    `2 nrBounces` per photon; when that bound fits in one bucket no bucket
    can overflow.
   */
  method EmitPhotons(
    sqrt: real -> real, reflect: (Obj, Vec3, Vec3, Vec3) -> Vec3,
    objs: seq<Obj>, nrBounces: nat, nrPhotons: nat, view3D: bool,
    pm: PhotonMap, samples: seq<Sample>, current: nat) returns (e: Emission)
    requires IsSqrt(sqrt) && SceneWellFormed(objs) && ValidMap(pm)
    requires |samples| == PhotonCount(view3D, nrPhotons)
    ensures e.Emitted? ==> ValidMap(e.pm)
    ensures e.Emitted? ==> Even(TotalBelow(e.pm, |objs|))
    ensures e.Emitted? ==> TotalBelow(e.pm, |objs|) <= 2 * nrBounces * PhotonCount(view3D, nrPhotons)
    ensures e.Emitted? ==> forall b :: |objs| <= b < MaxObjects ==> e.pm.counts[b] == pm.counts[b]
    ensures e.Emitted? ==> forall b :: |objs| <= b < MaxObjects ==> Live(e.pm, b) == Live(pm, b)
    ensures e.Emitted? ==> TotalBelow(e.pm, |objs|) == 2 * TotalPasses(sqrt, reflect, objs, nrBounces, samples)
    ensures e.Overflow? ==> 0 <= e.bucket < |objs|
    ensures 2 * nrBounces * PhotonCount(view3D, nrPhotons) <= BucketCapacity ==> e.Emitted?
  {
    var n := |objs|;
    var cleared := ClearCounts(pm, n);
    BudgetIsProduct(nrBounces, |samples|);
    var cur, gObje := cleared, current;
    GrewNothing(cleared, n, 0);
    var i := 0;
    while i < |samples|
      invariant 0 <= i <= |samples|
      invariant ValidMap(cur) && Grew(cleared, cur, n, Budget(nrBounces, i))
      invariant TotalBelow(cur, n) == 2 * TotalPasses(sqrt, reflect, objs, nrBounces, samples[..i])
    {
      var e1 := EmitOne(sqrt, reflect, objs, nrBounces, cur, samples[i], gObje);
      BudgetMonotone(nrBounces, i + 1, |samples|);
      if e1.Overflow? {
        return e1;
      }
      GrewChain(cleared, cur, e1.pm, n, Budget(nrBounces, i), 2 * nrBounces, Budget(nrBounces, i + 1));
      assert samples[..i + 1][..i] == samples[..i];
      cur, gObje := e1.pm, e1.current;
      i := i + 1;
    }
    e := Emitted(cur, gObje);
    assert samples[..i] == samples;
    assert TotalBelow(cur, n) - TotalBelow(cleared, n) == TotalBelow(cur, n);
    GrewKeepsOutside(pm, cleared, cur, n, Budget(nrBounces, i));
  }

  /** Growth after clearing the scene's buckets leaves every bucket outside the scene as it was before the clear. */
  lemma GrewKeepsOutside(pm: PhotonMap, cleared: PhotonMap, cur: PhotonMap, n: int, budget: int)
    requires ValidMap(pm) && 0 <= n <= MaxObjects && cleared == ClearCounts(pm, n)
    requires Grew(cleared, cur, n, budget)
    ensures forall b :: n <= b < MaxObjects ==> Live(cur, b) == Live(pm, b)
  {
    forall b | n <= b < MaxObjects
      ensures Live(cur, b) == Live(pm, b)
    {
      assert Live(cleared, b) == Live(cur, b)[..cleared.counts[b]];
    }
  }

  // ---------------------------------------------------------------------
  // Gathering
  // ---------------------------------------------------------------------

  /**
    The weight of one photon at a surface point: how squarely it arrives
    against the normal, times how near it is, over the exposure.
   */
  function Weight(sqrt: real -> real, n: Vec3, ph: Photon, d: real, exposure: real): real
    requires exposure != 0.0
  {
    Max(0.0, -Dot(n, ph.direction)) * (1.0 - sqrt(d)) / exposure
  }

  /** The gathering loop over a list of records, adding each near record's weighted energy in order. */
  function GatherSum(
    sqrt: real -> real, n: Vec3, p: Vec3, phs: seq<Photon>, sqRadius: real, exposure: real): Vec3
    requires exposure != 0.0
    decreases |phs|
  {
    if |phs| == 0 then Zero
    else
      var acc := GatherSum(sqrt, n, p, phs[..|phs| - 1], sqRadius, exposure);
      var ph := phs[|phs| - 1];
      var d := Distance(sqrt, p, ph.location);
      if d < sqRadius then Add(acc, Scale(ph.energy, Weight(sqrt, n, ph, d, exposure))) else acc
  }

  /**
    The photons within the gathering radius of `p`, in their order: each
    near record is kept as often as it occurs, every far one is dropped.
   */
  function Near(sqrt: real -> real, p: Vec3, phs: seq<Photon>, sqRadius: real): (r: seq<Photon>)
    ensures |r| <= |phs|
    ensures forall i :: 0 <= i < |r| ==> Distance(sqrt, p, r[i].location) < sqRadius
    ensures forall ph :: ph in r <==> ph in phs && Distance(sqrt, p, ph.location) < sqRadius
    ensures forall ph :: multiset(r)[ph] == if Distance(sqrt, p, ph.location) < sqRadius then multiset(phs)[ph] else 0
    decreases |phs|
  {
    if |phs| == 0 then []
    else
      var front := Near(sqrt, p, phs[..|phs| - 1], sqRadius);
      var ph := phs[|phs| - 1];
      SplitLast(phs);
      if Distance(sqrt, p, ph.location) < sqRadius then front + [ph] else front
  }

  /** A non-empty list is its front followed by its last record, as a multiset and in membership. */
  lemma SplitLast(phs: seq<Photon>)
    requires |phs| > 0
    ensures multiset(phs) == multiset(phs[..|phs| - 1]) + multiset{phs[|phs| - 1]}
    ensures forall q :: q in phs <==> q in phs[..|phs| - 1] || q == phs[|phs| - 1]
  {
    assert phs == phs[..|phs| - 1] + [phs[|phs| - 1]];
  }

  /**
    gatherPhotons: the light arriving at `p` on object `ob`, summed from
    the records in `ob`'s bucket only: the weighted energies of the live
    records within the radius, with the surface normal at `p`. An empty
    bucket gathers no light.
   */
  function Gather(
    sqrt: real -> real, pm: PhotonMap, p: Vec3, ob: Obj, sqRadius: real, exposure: real): (r: Vec3)
    requires IsSqrt(sqrt) && ValidMap(pm) && 0 <= ob.index < MaxObjects
    requires NormalDefined(ob, p, Origin)
    requires exposure != 0.0
    ensures r == GatherSum(sqrt, SurfaceNormal(sqrt, ob, p, Origin), p,
      Near(sqrt, p, Live(pm, ob.index), sqRadius), sqRadius, exposure)
    ensures pm.counts[ob.index] == 0 ==> r == Zero
  {
    var n := SurfaceNormal(sqrt, ob, p, Origin);
    GatherIgnoresFar(sqrt, n, p, Live(pm, ob.index), sqRadius, exposure);
    assert pm.counts[ob.index] == 0 ==> Live(pm, ob.index) == [];
    GatherSum(sqrt, n, p, Live(pm, ob.index), sqRadius, exposure)
  }

  /** Records outside the radius contribute nothing: gathering over the near records alone gives the same light. */
  lemma {:induction false} GatherIgnoresFar(
    sqrt: real -> real, n: Vec3, p: Vec3, phs: seq<Photon>, sqRadius: real, exposure: real)
    requires exposure != 0.0
    ensures GatherSum(sqrt, n, p, phs, sqRadius, exposure)
      == GatherSum(sqrt, n, p, Near(sqrt, p, phs, sqRadius), sqRadius, exposure)
    decreases |phs|
  {
    if |phs| > 0 {
      var front := phs[..|phs| - 1];
      var ph := phs[|phs| - 1];
      GatherIgnoresFar(sqrt, n, p, front, sqRadius, exposure);
      var nf := Near(sqrt, p, front, sqRadius);
      if Distance(sqrt, p, ph.location) < sqRadius {
        assert (nf + [ph])[..|nf + [ph]| - 1] == nf;
      }
    }
  }

  /** An empty bucket gathers no light. */
  lemma GatherEmptyBucket(
    sqrt: real -> real, pm: PhotonMap, p: Vec3, ob: Obj, sqRadius: real, exposure: real)
    requires IsSqrt(sqrt) && ValidMap(pm) && 0 <= ob.index < MaxObjects
    requires NormalDefined(ob, p, Origin)
    requires exposure != 0.0
    requires pm.counts[ob.index] == 0
    ensures Gather(sqrt, pm, p, ob, sqRadius, exposure) == Zero
  {
    assert Live(pm, ob.index) == [];
  }

  /**
    Storing a record changes the light gathered on the object whose bucket
    received it by that record's contribution alone, and leaves every
    other object's light unchanged.
   */
  lemma GatherAfterStore(
    sqrt: real -> real, pm: PhotonMap, target: Obj, ph: Photon,
    p: Vec3, ob: Obj, sqRadius: real, exposure: real)
    requires IsSqrt(sqrt) && ValidMap(pm)
    requires 0 <= target.index < MaxObjects && pm.counts[target.index] < BucketCapacity
    requires 0 <= ob.index < MaxObjects && NormalDefined(ob, p, Origin)
    requires exposure != 0.0
    ensures ob.index != target.index ==>
      Gather(sqrt, StorePhoton(pm, target, ph), p, ob, sqRadius, exposure)
      == Gather(sqrt, pm, p, ob, sqRadius, exposure)
    ensures ob.index == target.index ==>
      Gather(sqrt, StorePhoton(pm, target, ph), p, ob, sqRadius, exposure)
      == GatherSum(sqrt, SurfaceNormal(sqrt, ob, p, Origin), p, Live(pm, ob.index) + [ph], sqRadius, exposure)
    ensures ob.index == target.index && Distance(sqrt, p, ph.location) >= sqRadius ==>
      Gather(sqrt, StorePhoton(pm, target, ph), p, ob, sqRadius, exposure)
      == Gather(sqrt, pm, p, ob, sqRadius, exposure)
  {
    var r := StorePhoton(pm, target, ph);
    var live := Live(pm, ob.index);
    if ob.index == target.index {
      assert (live + [ph])[..|live + [ph]| - 1] == live;
    }
  }

  /** With a radius of at most one and a positive exposure, no near photon has a negative weight. */
  lemma WeightNonNegative(sqrt: real -> real, n: Vec3, ph: Photon, d: real, sqRadius: real, exposure: real)
    requires IsSqrt(sqrt)
    requires 0.0 <= d < sqRadius <= 1.0 && exposure > 0.0
    ensures Weight(sqrt, n, ph, d, exposure) >= 0.0
  {
    var s := sqrt(d);
    assert 0.0 <= s && s * s == d;
    if s >= 1.0 {
      MulMonotone(1.0, 1.0, s, s);
    }
    assert 1.0 - s >= 0.0;
    var a := Max(0.0, -Dot(n, ph.direction));
    assert a >= 0.0;
    MulNonNegative(a, 1.0 - s);
  }

  /**
    With non-negative photon energies (no shadow records) the gathered
    light is non-negative in every channel.
   */
  lemma {:induction false} GatherNonNegative(
    sqrt: real -> real, n: Vec3, p: Vec3, phs: seq<Photon>, sqRadius: real, exposure: real)
    requires IsSqrt(sqrt)
    requires sqRadius <= 1.0 && exposure > 0.0
    requires forall i, c :: 0 <= i < |phs| && 0 <= c < 3 ==> At(phs[i].energy, c) >= 0.0
    ensures forall c :: 0 <= c < 3 ==> At(GatherSum(sqrt, n, p, phs, sqRadius, exposure), c) >= 0.0
    decreases |phs|
  {
    if |phs| > 0 {
      var front := phs[..|phs| - 1];
      var ph := phs[|phs| - 1];
      GatherNonNegative(sqrt, n, p, front, sqRadius, exposure);
      var d := Distance(sqrt, p, ph.location);
      if d < sqRadius {
        DotSelfNonNegative(Sub(p, ph.location));
        assert d >= 0.0;
        WeightNonNegative(sqrt, n, ph, d, sqRadius, exposure);
        var w := Weight(sqrt, n, ph, d, exposure);
        forall c | 0 <= c < 3
          ensures At(Scale(ph.energy, w), c) >= 0.0
        {
          assert At(ph.energy, c) >= 0.0;
          MulNonNegative(w, At(ph.energy, c));
        }
      }
    }
  }
}
