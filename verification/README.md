# Photon-mapping ray tracer: a Dafny model of its core

The modelled program is a small interactive ray tracer with a photon map.
A scene is a list of spheres and axis-aligned planes. A ray is traced to
the nearest object it hits. Photons are shot from a point light, bounced
through the scene and stored per object. Later they are gathered back to
light the surface points. The image is drawn progressively, on grids of
2x2, 4x4, 8x8 cells and so on, in batches. Key presses and mouse drags
change the view, move a sphere or move the light, and restart the drawing.

The model is written over Dafny `real`. Square roots cannot be computed
over the reals, so the square root is a parameter `sqrt`. `IsSqrt(sqrt)`
says what it must satisfy: it is non-negative and it squares back. The
reflection of a ray and the random sampling of photons are parameters too.

Modules, one per file:

- `Vector3` (vector3.dfy): the vector toolkit. It covers componentwise
  arithmetic, the dot product, normalisation and the gated
  squared-distance tests.
- `Objects` (objects.dfy): the scene object. It covers the constructor,
  the setters, plane and sphere intersection and the plane normal.
- `Scene` (scene.dfy): the per-object dispatch, the nearest-hit fold of
  `checkDistance`/`raytrace`, and `surfaceNormal`. The trace globals
  (`gIntersect`, `gDist`, `gObje`) become a returned `Hit` record.
- `Photons` (photons.dfy): the photon buckets and `storePhoton`,
  `shadowPhoton` and `mulColor`. It also holds the emission loops of
  `emitPhotons` and the gathering filter of `gatherPhotons`.
- `Scheduler` (scheduler.dfy): the progressive scan of `render` and
  `resetRender`:
  - a state `(pRow, pCol, pIteration, pMax)`;
  - a wrap-and-advance step;
  - the interlace predicate;
  - the batch loop.
- `Interaction` (interaction.dfy): `constrain`, `onKeyPress` and
  `onDrag` over a record of the interaction globals.

Main results:

- `Scene.Raytrace` returns the smallest accepted distance. Ties go to the
  earliest object, and the hit point lies on that object's surface. On a
  miss it returns the previous object.
- `Scheduler.DrawnExactlyOnce`: up to level 9, every grid point of level
  k satisfies `DrawnAt` at exactly one level among 1..k.
  `Scheduler.ScanDrawsEveryGridPoint` and `Scheduler.ScanNeverRedraws`
  carry this over to the scan from its reset. Up to level 9, every grid
  point is drawn by some pass, and no two passes draw the same pixel.
- `Scheduler.Render` terminates. It draws exactly the bound's number of
  pixels and stops at the first pass that reaches it.
- `Photons.EmitPhotons` stores exactly two records per pass of the
  bounce loop (`Photons.TotalPasses`), which is at most `2 nrBounces` per
  photon, and only in the scene's buckets. No bucket overflows when that
  bound fits in one bucket.
- `Interaction.LightStaysInBox`: a light that starts in its box stays
  there under any sequence of key presses and drags.

## Model

| member | source | states |
|---|---|---|
| Vector3.Copy | vector3.cpp:16-20 | each component of the copy is the source's component |
| Vector3.Sub | vector3.cpp:22-26 | each component is the difference of the operands' components |
| Vector3.Add | vector3.cpp:28-32 | each component is the sum of the operands' components; subtracting the second operand again gives back the first |
| Vector3.Scale | vector3.cpp:34-38 | each component is multiplied by the scalar; scaling by one is the identity and by zero gives the zero vector |
| Vector3.DotSymmetric | vector3.cpp:40-42 | the dot product does not depend on the order of its operands |
| Vector3.DotSelfNonNegative | vector3.cpp:40-42 | a vector's dot product with itself is never negative, and is positive exactly for a non-zero vector |
| Vector3.Normalize | vector3.cpp:11-14 | the result has length one, and scaling it by the original length gives back the vector |
| Vector3.GatedSqDist3 | vector3.cpp:48-59 | the early-exit test accepts exactly when the full squared distance is within the radius; on acceptance it records that squared distance, and on rejection it keeps the previously recorded value |
| Vector3.GatedSqDist2 | vector3.cpp:61-69 | the same equivalence and recording for the x-y projection |
| Vector3.Gated3ImpliesGated2 | vector3.cpp:48-69 | a point accepted in three dimensions is accepted in the projection, with a squared distance no larger |
| Objects.NewObj | object.cpp:3-17 | the object gets the given type and index, no optics, refractive index one and a white colour; it copies exactly 4 coordinates for a sphere and 2 for a plane and leaves the other slots as they were |
| Objects.SetOptics | object.h:24 | the optic becomes the given one and every other field is unchanged |
| Objects.SetColor | object.h:25-27 | the three colour components are copied and every other field is unchanged |
| Objects.UpdatesKeepIdentity | object.h:17-43 | after any sequence of `setOptics` and `setColor` calls and `MoveBy` shifts of the first two coordinates, the type, index and refractive index are still those of construction |
| Objects.MoveBy | main.cpp:527-529 | the first two coordinates are shifted by the offsets, and nothing else about the object changes |
| Objects.Trunc | object.cpp:33 | the integer cast truncates toward zero: it is within one below a non-negative value and within one above a negative one |
| Objects.PlaneIntersection | object.cpp:66-74 | a ray parallel to the plane gives the miss sentinel; any other ray gives the parameter at which its axis coordinate equals the plane's offset |
| Objects.PlaneHitOnPlane | object.cpp:69-71 | for a non-parallel ray, the point at the returned parameter lies on the plane |
| Objects.PlaneNormal | object.cpp:30-39 | the normal is zero off the plane's axis, and on the axis it is +1 or -1 according to which side of the plane the reference point lies |
| Objects.SphereIntersection | object.cpp:42-64 | a ray whose discriminant is not positive gives the miss sentinel |
| Objects.SphereHitOnSphere | object.cpp:53-61 | with a positive discriminant, the returned parameter is a root of the ray-sphere quadratic, so the point it names is at the radius from the centre |
| Objects.SphereRootChoice | object.cpp:60-61 | from inside the sphere (C below -1e-5) the largest root is returned and it lies ahead of the origin; otherwise the smallest root is returned |
| Objects.OnlyTwoRoots | object.cpp:56-61 | a quadratic with a non-zero leading coefficient has no roots other than the two of the quadratic formula |
| Scene.Intersection | main.cpp:83-96 | a triangle is never hit; an accepted distance (0 < t < 1e6) names a point `org + r*t` on the object's surface: at the radius from a sphere's centre, or at a plane's offset along its axis |
| Scene.Nearest | main.cpp:71-81 | the checkDistance fold hits exactly when some distance is accepted (0 < d < 1e6); the distance kept is the least accepted one and belongs to the first position that attains it; on a miss the sentinel and the previous object are kept |
| Scene.Raytrace | main.cpp:133-144 | the trace hits exactly when some object reports an accepted distance; the hit object attains the least such distance and every earlier object's accepted distance is strictly larger; the hit point lies on the hit object's surface; on a miss the previous object stays |
| Scene.RaytraceIgnoresPrev | main.cpp:133-144 | whether a trace hits, and on a hit which object and distance it finds, do not depend on the previous object `gObje`; only a miss reports it |
| Scene.EmptySceneMisses | main.cpp:133-144 | tracing an empty scene leaves the reset of `raytrace` in place: no hit, the sentinel distance, and `gObje` still the previous object |
| Scene.SphereNormal | object.cpp:20-28 | the sphere normal has length one, and scaling it by the distance from the centre gives the offset of the point from the centre |
| Scene.SurfaceNormal | main.cpp:111-119 | spheres and planes get a unit normal; every other type gets the zero vector, and only those types get it |
| Scene.PlaneNormalUnit | object.cpp:30-39 | the plane normal has length one |
| Photons.StorePhoton | main.cpp:326-336 | the record is appended to the bucket of the object's index and that bucket's count rises by one; every other bucket and count, and every other slot, is unchanged; the old records stay |
| Photons.StoreCounts | main.cpp:326-336 | storing into one of the scene's buckets adds exactly one record to the scene's total and changes no count outside the scene |
| Photons.ClearCounts | main.cpp:269 | the counts of the scene's buckets become zero and their live records are empty; the other counts and all slots are unchanged |
| Photons.MulColor | main.cpp:364-372 | each colour channel is the object's channel times the photon's channel |
| Photons.MulColorWhite | main.cpp:364-372 | a white object passes the colour through and a black one absorbs it |
| Photons.ShadowPhoton | main.cpp:338-362 | the shadow record has the ray's direction and the shadow energy; it goes to the object the bumped trace hits, or to the current object, one million units along the ray, when that trace misses |
| Photons.StoreHitAndShadow | main.cpp:311-314 | the photon record `(point, ray, rgb)` is appended to the hit object's bucket and then the shadow record to the bucket of the object the shadow ray finds (the hit object on a miss), after that bucket's earlier records; every other bucket keeps its count and records; the scene total rises by exactly two; an overflow names one of those two buckets and can only happen when the scene's buckets hold more than 4998 records |
| Photons.OnePass | main.cpp:305-321 | the hit point is `ray * dist + prevPoint` and the colour is the object-filtered colour over sqrt(bounces); the photon record at the hit point goes to the hit object's bucket and the shadow record, at the point the bumped shadow ray reaches (one million units along it on a miss), to the bucket of the object that ray finds; no other bucket changes; the next ray is the reflection, traced on from the hit point with `gObje` the hit object |
| Photons.BounceStep | main.cpp:305-321 | a pass of the bounce loop moves to `ray * dist + prevPoint`, stores the photon record there in the hit object's bucket and the shadow record in the bucket the shadow ray finds, raising the scene total by exactly two, reflects the ray and traces on from the hit point; so the records stored plus two per pass still to come stay constant; the photon's records still number at most two per pass, and an overflow only happens where the photon's whole budget would not fit in a bucket |
| Photons.PathLength | main.cpp:305-321 | the passes the bounce loop makes from a trace result: at least one exactly when the trace hits and a bounce remains, and never past the last bounce |
| Photons.PhotonPasses | main.cpp:276-322 | a photon makes at most nrBounces passes, and at least one exactly when its start is valid, a bounce is allowed and its first trace hits |
| Photons.FirstPath | main.cpp:276-305 | the passes left at the head of the bounce loop, whatever the previous object, are all of the photon's passes (none from an invalid start) |
| Photons.FollowPhoton | main.cpp:305-321 | the bounce loop stores exactly two records per pass of the photon's path, within its budget of 2 nrBounces, and stores nothing when no bounce remains |
| Photons.PositiveSqrt | main.cpp:309 | the square root of a bounce number is positive, so the colour division is defined |
| Photons.EmitOne | main.cpp:276-322 | one photon adds exactly two records per pass of its path (`PhotonPasses`), so at most two per bounce and at least two when its start is valid, a bounce is allowed and its first trace hits, only to the scene's buckets, keeping earlier ones; a photon with an invalid start adds none; no overflow when 2 nrBounces more records fit |
| Photons.BudgetIsProduct | main.cpp:275-277 | the per-photon allowance of 2 nrBounces records, summed over the photons, is 2 nrBounces times the photon count |
| Photons.EmitPhotons | main.cpp:263-324 | after clearing the counts, the scene's buckets hold exactly twice the photons' passes (`TotalPasses`) in records, so at most 2 nrBounces per photon and at least two per photon whose start is valid and whose first trace hits when a bounce is allowed, with the count tripled in the 3D view; buckets outside the scene keep their counts and their live records; an overflow names a scene bucket and cannot occur when that bound fits in one bucket |
| Photons.Gather | main.cpp:224-248 | the light gathered at a point of an object is the weighted sum over the near records of that object's bucket alone, with the surface normal at the point; an object whose bucket is empty gathers no light |
| Photons.Near | main.cpp:231-236 | the records kept are exactly those whose distance is below the radius, each as many times as it occurs in the bucket (equal multisets), so duplicates are gathered twice |
| Photons.GatherIgnoresFar | main.cpp:231-246 | gathering over all records gives the same light as gathering over the near records alone |
| Photons.GatherEmptyBucket | main.cpp:227-231 | an object whose bucket is empty gathers the zero vector |
| Photons.GatherAfterStore | main.cpp:228-231 | storing a record changes only the light of the object whose bucket received it, by that record's contribution, and not at all when the record is outside the radius |
| Photons.WeightNonNegative | main.cpp:238-242 | with a radius of at most one and a positive exposure, the weight of a near photon is not negative |
| Photons.GatherNonNegative | main.cpp:224-248 | with records of non-negative energy, the gathered light is non-negative in every channel |
| Scheduler.Wrap | main.cpp:411-418 | a column past the row's end moves the scan to the next row, and past the last row to the first cell of the next level with pMax doubled; after the wrap the cell is on the grid |
| Scheduler.Advance | main.cpp:411-421 | a pass keeps the scan valid (pMax = 2^pIteration, row and column on the grid) and either keeps the level or moves up exactly one level with pMax doubled |
| Scheduler.AdvancePosition | main.cpp:411-421 | within a level a pass moves the scan on by one cell; a level ends after exactly pMax*pMax cells |
| Scheduler.Reset | main.cpp:442 | the first state is valid: level one, pMax two, row and column zero |
| Scheduler.AdvanceN | main.cpp:408-421 | any number of passes keeps the scan valid and never lowers the level |
| Scheduler.NoTwoSkips | main.cpp:419-421 | a skipped cell is always followed by a drawn one |
| Scheduler.InterlaceSkip | main.cpp:419-420 | at a level k from 2 to 9, a cell is skipped exactly when its pixel is a grid point of level k-1 |
| Scheduler.DrawnExactlyOnce | main.cpp:419-420 | up to level 9, every grid point of level k satisfies `DrawnAt` (is the pixel of a cell that needs drawing) at exactly one of levels 1..k, the first level whose grid contains it |
| Scheduler.NextCell | main.cpp:411-421 | each pass of the scan examines the cell that follows the previous one in scan order: the next column, the start of the next row, or the first cell of the next level |
| Scheduler.ScanVisits | main.cpp:408-421 | the scan from `resetRender` examines every cell of every level |
| Scheduler.ScanOrder | main.cpp:408-421 | a later pass examines a later cell: one of a later level, or one further on in the same level |
| Scheduler.ScanDrawsEveryGridPoint | main.cpp:408-421 | up to level 9, every grid point of level k is drawn by some pass of the scan from `resetRender`, at the first level whose grid contains it |
| Scheduler.ScanNeverRedraws | main.cpp:408-421 | up to level 9, two different passes of the scan from `resetRender` that both draw draw different pixels |
| Scheduler.BoundGrowth | main.cpp:408 | the batch bound never falls as pMax doubles, and grows by at most pMax |
| Scheduler.MeasureDecreases | main.cpp:408-424 | every pass of an unfinished batch lowers a non-negative measure, so the batch loop terminates |
| Scheduler.BatchStep | main.cpp:408-437 | one pass of an unfinished batch extends the scan and the drawn pixels by exactly that pass |
| Scheduler.DrawBatch | main.cpp:408-437 | the batch loop ends with exactly the bound's number of drawn pixels, which are the pixels of the passes made |
| Scheduler.Render | main.cpp:403-439 | a batch draws exactly `dragging ? 1024 : max(pMax, 256)` pixels, in scan order; it is the shortest run of passes that reaches that number and it ends on a drawn cell; the done flag is set exactly when the batch ends in the last image row |
| Scheduler.ResetRender | main.cpp:441-445 | the scan restarts at the first state with the image incomplete, and photons are re-emitted exactly when photon lighting is on and the view is 2D |
| Interaction.Constrain | main.cpp:28-29 | the result is never above the upper end, never below the lower end of a non-empty range, equals a source inside the range, and is an end of the range when the source is outside it |
| Interaction.ConstrainIdempotentMonotone | main.cpp:28-29 | clamping twice is clamping once, and clamping keeps the order of its inputs |
| Interaction.Restart | main.cpp:441-445 | a restart resets the scan and the done flag, counts a photon emission exactly in 2D photon mode, and changes nothing else |
| Interaction.OnKeyPress | main.cpp:467-477 | keys 1, 2 and 3 set the view and lighting modes and restart the drawing; any other key changes nothing |
| Interaction.DragLight | main.cpp:531-534 | the dragged light lands in its box with its depth unchanged, and an unclamped move is exact |
| Interaction.OnDrag | main.cpp:519-541 | the mouse position is recorded; while dragging, a known previous position and a pick move the picked sphere, or else the light, and restart the drawing; while dragging, the position becomes the previous one; with no drag in progress nothing else changes |
| Interaction.LightStaysInBox | main.cpp:531-534 | a light that starts inside its box stays inside it after any sequence of key presses and drags |
| Interaction.ObjectsKeepIdentity | main.cpp:526-529 | interaction never changes the number of objects, their types, their indices, or any coordinate from the third on (a sphere's depth and radius) |
| Interaction.DragThereAndBack | main.cpp:526-529 | dragging a picked sphere away and straight back returns the scene to where it was |

## Left out

- Windowing and drawing:
  - GLUT setup, `display`, `resize` and `onTimer`;
  - the GL calls in `render`, and `drawPhoton`;
  - `sleep` and `printf`.
  These are output only. A batch of `Scheduler.Render` returns the pixel coordinates it would draw.
- `calcPixelColor`, `lightDiffuse` and `lightObject`: the pixel's colour is not modelled, only which pixels are drawn and in what order. The colour's bounce loop depends on `reflection_limit`, which is not part of this model.
- `reflect` (the reflected ray) is a parameter of the emission model. `refract` is a stub that is never called.
- Random sampling (`srand`, `rand`, `randDir`, `rand3`) and the rejection loop that places the photon origin. The direction and origin of each photon are given as a `Sample`. `StartValid` is the validity test applied to the origin.
- `onClick`, which picks a sphere under the mouse: the dragging flag and the picked index are part of the interaction state.
- `SIntersectionStat` (object.h:45-52), whose default has a null object: nothing in main.cpp uses it.
- `initObje`, `freeObje`, `main`, and the stale `cObje.cpp`/`cObje.h` copy of the object class.
- The `WebCore::Vector3` class, which is not part of this model. `distance` is modelled as the Euclidean distance with the supplied square root.
- Floating-point rounding and NaN: all arithmetic is exact over `real`, and `float`/`double` are not distinguished.
- Photons.StorePhoton: requires a free slot, because the source writes past the end of a full bucket. The emission methods stop with `Overflow` where the source would do that.
- Scheduler.Render: termination and the pixel count are proved, but not that repeated batches eventually reach the last image row.
- Scheduler.DrawnExactlyOnce: stated up to level 9, where the grid still divides the 512-pixel image. The model's level counter is unbounded. The source computes `pMax` with `pow` and an `int` conversion, which fails past level 30; that is not modelled.
- Photons.EmitPhotons: the no-overflow guarantee needs `2 nrBounces` times the photon count to fit in one bucket of 5000. For the shipped constants (1000 photons, 3 bounces) the model gives no guarantee against overflow, because 6000 > 5000 (18000 in the 3D view).

## Behaviour worth noting

Each item is what the code does, and the model follows it.

- A shadow record is stored even when the shadow trace misses. `raytrace` does not reset `gObje`, so the record goes to the current object's bucket, one million units along the ray (main.cpp:349-357).
- Gathering adds every live record within the radius, including shadow records, which have negative energy (main.cpp:231-245). It compares the distance itself, not its square, with `sqRadius`.
- `checkDistance` accepts any distance strictly between zero and the best so far, with no tolerance (main.cpp:75).
- `emitPhotons` only zeroes the counts; the old records stay in their slots (main.cpp:269).
- `odd` is the low bit, `x & 1` (main.cpp:30), while main.h:84 declares it as `x % 2 != 0`. The model uses the low bit, which is also `x % 2 == 1` under Dafny's Euclidean remainder.
