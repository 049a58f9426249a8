/**
  The interaction state of the viewer: the key presses that switch the
  view and the lighting mode, and mouse dragging, which moves the picked
  sphere or, when no sphere was picked, the light (kept inside a box).
  Every change restarts the progressive rendering through resetRender.

  The globals the handlers touch are gathered in `Ui`. Emitting the
  photons is the emission model of the photon map; here a restart only
  records whether it asks for one (`emissions` counts the requests).
  Picking a sphere on a click (onClick) is not part of this model: the
  picked index and the dragging flag are part of the state.
 */
module Interaction {
  import opened Vector3
  import opened Objects
  import Scheduler

  /** Mouse pixels per scene unit (`s`). */
  const MouseScale: real := 130.0

  /** The "no previous mouse position" marker. */
  const NoPrevious: int := -9999

  /** The initial "nothing picked" sphere index. */
  const NoSphere: int := -1

  /** The box the light is kept in while dragged, x and y only. */
  const LightMinX: real := -1.4
  const LightMaxX: real := 1.4
  const LightMinY: real := -0.4
  const LightMaxY: real := 1.2

  /**
    constrain: `src` clamped to `[lower, upper]`, written as
    min(upper, max(src, lower)). For an empty range (`lower > upper`) the
    upper end wins.
   */
  function Constrain(src: real, lower: real, upper: real): (r: real)
    ensures r <= upper
    ensures lower <= upper ==> lower <= r
    ensures lower <= src <= upper ==> r == src
    ensures src < lower && lower <= upper ==> r == lower
    ensures upper < src ==> r == upper
    ensures upper < lower ==> r == upper
  {
    var m := if src < lower then lower else src;
    if upper < m then upper else m
  }

  /** Clamping twice is clamping once, and clamping keeps the order of its inputs. */
  lemma ConstrainIdempotentMonotone(a: real, b: real, lower: real, upper: real)
    requires lower <= upper
    ensures Constrain(Constrain(a, lower, upper), lower, upper) == Constrain(a, lower, upper)
    ensures a <= b ==> Constrain(a, lower, upper) <= Constrain(b, lower, upper)
  {
  }

  datatype Ui = Ui(
    view3D: bool,
    lightPhotons: bool,
    dragging: bool,
    mouseX: int,
    mouseY: int,
    prevX: int,
    prevY: int,
    sphereIndex: int,
    light: Vec3,
    objs: seq<Obj>,
    scan: Scheduler.Scan,
    empty: bool,
    emissions: nat)

  /** The light lies in the drag box. */
  predicate InBox(l: Vec3)
  {
    LightMinX <= l.x <= LightMaxX && LightMinY <= l.y <= LightMaxY
  }

  /** resetRender applied to the state: the scan restarts, and photons are re-emitted in 2D photon mode. */
  function Restart(u: Ui): (r: Ui)
    ensures r.scan == Scheduler.Reset() && r.empty
    ensures r.emissions == u.emissions + (if u.lightPhotons && !u.view3D then 1 else 0)
    ensures r.(scan := u.scan, empty := u.empty, emissions := u.emissions) == u
  {
    var rs := Scheduler.ResetRender(u.lightPhotons, u.view3D);
    u.(scan := rs.scan, empty := rs.empty, emissions := u.emissions + (if rs.emit then 1 else 0))
  }

  /** The state after a restart of the scan: reset scan, incomplete image, and the request count `from` moved on when `r` asks for photons. */
  predicate RestartedFrom(from: nat, r: Ui)
  {
    r.scan == Scheduler.Reset() && r.empty
    && r.emissions == from + (if r.lightPhotons && !r.view3D then 1 else 0)
  }

  /**
    onKeyPress: '1' selects the 2D view with ray tracing only, '2' the 2D
    view with photon lighting, '3' the 3D photon view (keeping the lighting
    flag). Any other key changes nothing and does not restart the rendering.
   */
  function OnKeyPress(u: Ui, key: int): (r: Ui)
    ensures key == 49 ==> !r.view3D && !r.lightPhotons
    ensures key == 50 ==> !r.view3D && r.lightPhotons
    ensures key == 51 ==> r.view3D && r.lightPhotons == u.lightPhotons
    ensures key != 49 && key != 50 && key != 51 ==> r == u
    ensures key == 49 || key == 50 || key == 51 ==>
      RestartedFrom(u.emissions, r)
      && r.(view3D := u.view3D, lightPhotons := u.lightPhotons, scan := u.scan, empty := u.empty, emissions := u.emissions) == u
  {
    if key == 49 then Restart(u.(view3D := false, lightPhotons := false))
    else if key == 50 then Restart(u.(view3D := false, lightPhotons := true))
    else if key == 51 then Restart(u.(view3D := true))
    else u
  }

  /** A mouse offset in scene units: an integer pixel difference divided by the scale. */
  function Offset(now: int, prev: int): real
  {
    (now - prev) as real / MouseScale
  }

  /** Whether a drag event moves something: a drag in progress, a known previous position and a pick. */
  predicate Moves(u: Ui)
  {
    u.dragging && u.prevX > NoPrevious && u.sphereIndex > NoSphere
  }

  /** The light dragged by a mouse offset: x and y clamped to the box, z kept. */
  function DragLight(l: Vec3, dx: real, dy: real): (r: Vec3)
    ensures InBox(r) && r.z == l.z
    ensures LightMinX <= l.x + dx <= LightMaxX ==> r.x == l.x + dx
    ensures LightMinY <= l.y - dy <= LightMaxY ==> r.y == l.y - dy
  {
    Vec3(Constrain(l.x + dx, LightMinX, LightMaxX), Constrain(l.y - dy, LightMinY, LightMaxY), l.z)
  }

  /**
    onDrag: the mouse position is recorded. While dragging with a known
    previous position and a pick, a picked sphere moves by the mouse offset
    (screen y grows downwards, so the scene y falls) and otherwise the light
    moves within its box; either way the rendering restarts. While
    dragging the position becomes the previous one.
   */
  function OnDrag(u: Ui, x: int, y: int): (r: Ui)
    ensures r.mouseX == x && r.mouseY == y
    ensures !u.dragging ==> r == u.(mouseX := x, mouseY := y)
    ensures u.dragging ==> r.prevX == x && r.prevY == y
    ensures Moves(u) ==> RestartedFrom(u.emissions, r)
    ensures !Moves(u) ==> r.scan == u.scan && r.empty == u.empty && r.emissions == u.emissions
    ensures Moves(u) && u.sphereIndex < |u.objs| ==>
      r.light == u.light && r.objs == u.objs[u.sphereIndex := MoveBy(u.objs[u.sphereIndex], Offset(x, u.prevX), -Offset(y, u.prevY))]
    ensures Moves(u) && u.sphereIndex >= |u.objs| ==>
      r.objs == u.objs && r.light == DragLight(u.light, Offset(x, u.prevX), Offset(y, u.prevY))
    ensures !Moves(u) ==> r.objs == u.objs && r.light == u.light
    ensures r.view3D == u.view3D && r.lightPhotons == u.lightPhotons
    ensures r.dragging == u.dragging && r.sphereIndex == u.sphereIndex
  {
    var v := u.(mouseX := x, mouseY := y);
    if !v.dragging then v
    else
      var moved :=
        if Moves(v) then
          var dx, dy := Offset(x, v.prevX), Offset(y, v.prevY);
          if v.sphereIndex < |v.objs| then
            Restart(v.(objs := v.objs[v.sphereIndex := MoveBy(v.objs[v.sphereIndex], dx, -dy)]))
          else
            Restart(v.(light := DragLight(v.light, dx, dy)))
        else v;
      moved.(prevX := x, prevY := y)
  }

  /** The events the two handlers receive. */
  datatype Event = Key(key: int) | Drag(x: int, y: int)

  function Step(u: Ui, e: Event): Ui
  {
    match e
    case Key(k) => OnKeyPress(u, k)
    case Drag(x, y) => OnDrag(u, x, y)
  }

  function Run(u: Ui, es: seq<Event>): Ui
    decreases |es|
  {
    if |es| == 0 then u else Run(Step(u, es[0]), es[1..])
  }

  /**
    A light that starts inside its box stays there whatever keys are
    pressed and however the mouse is dragged.
   */
  lemma {:induction false} LightStaysInBox(u: Ui, es: seq<Event>)
    requires InBox(u.light)
    ensures InBox(Run(u, es).light)
    decreases |es|
  {
    if |es| > 0 {
      LightStaysInBox(Step(u, es[0]), es[1..]);
    }
  }

  /** Whether `v`'s objects match `u`'s in number, type, index and every coordinate from the third on. */
  predicate SameShape(u: seq<Obj>, v: seq<Obj>)
  {
    |v| == |u|
    && forall i :: 0 <= i < |u| ==>
      v[i].kind == u[i].kind && v[i].index == u[i].index && v[i].coords[2..] == u[i].coords[2..]
  }

  /** One event keeps the shape of the scene. */
  lemma StepKeepsShape(u: Ui, e: Event)
    ensures SameShape(u.objs, Step(u, e).objs)
  {
    var v := Step(u, e);
    if e.Drag? && Moves(u) && u.sphereIndex < |u.objs| {
      var i := u.sphereIndex;
      assert v.objs[i].coords[2..] == u.objs[i].coords[2..];
    }
  }

  /**
    The scene keeps its shape under interaction: the same number of
    objects, each with its type and index, and a sphere keeps its depth
    and radius.
   */
  lemma {:induction false} ObjectsKeepIdentity(u: Ui, es: seq<Event>)
    ensures SameShape(u.objs, Run(u, es).objs)
    decreases |es|
  {
    if |es| == 0 {
      assert Run(u, es) == u;
    } else {
      var v := Step(u, es[0]);
      StepKeepsShape(u, es[0]);
      ObjectsKeepIdentity(v, es[1..]);
    }
  }

  /**
    Dragging a picked sphere away and straight back returns it, and the
    whole scene, to where it was.
   */
  lemma DragThereAndBack(u: Ui, x: int, y: int)
    requires Moves(u) && u.sphereIndex < |u.objs| && x > NoPrevious
    ensures OnDrag(OnDrag(u, x, y), u.prevX, u.prevY).objs == u.objs
  {
    var i := u.sphereIndex;
    var o := u.objs[i];
    var v := OnDrag(u, x, y);
    var o1 := v.objs[i];
    var w := OnDrag(v, u.prevX, u.prevY);
    assert Offset(u.prevX, x) == -Offset(x, u.prevX);
    assert Offset(u.prevY, y) == -Offset(y, u.prevY);
    var o2 := w.objs[i];
    assert o2.coords[0] == o.coords[0] && o2.coords[1] == o.coords[1];
    assert o2.coords == o.coords;
    assert o2 == o;
  }
}
