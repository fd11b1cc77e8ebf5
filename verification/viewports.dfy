/** The viewport geometry of the second sketcher (logic.py): a viewport is the
    world rectangle between two corners, mapped affinely onto the screen
    rectangle of the drawing context. Coordinates are exact reals, so the
    inverse and fixed-point facts below hold exactly rather than up to
    floating-point rounding. */
module Viewports {
  import opened Util

  /** A two-component world or screen vector; arithmetic is componentwise, as
      on the two-element arrays of the source. */
  datatype Vec = Vec(x: real, y: real)

  function Add(a: Vec, b: Vec): Vec { Vec(a.x + b.x, a.y + b.y) }
  function Sub(a: Vec, b: Vec): Vec { Vec(a.x - b.x, a.y - b.y) }
  function Mul(a: Vec, b: Vec): Vec { Vec(a.x * b.x, a.y * b.y) }
  function Scale(a: Vec, k: real): Vec { Vec(a.x * k, a.y * k) }
  function Neg(a: Vec): Vec { Vec(-a.x, -a.y) }

  /** A usable divisor. numpy divides by zero without raising, giving
      infinity or NaN, which exact reals cannot represent; the members that
      divide require their divisors to be non-zero instead. */
  predicate NonZero(v: Vec) { v.x != 0.0 && v.y != 0.0 }

  function Div(a: Vec, b: Vec): Vec
    requires NonZero(b)
  {
    Vec(a.x / b.x, a.y / b.y)
  }

  /** `np.any(a > b)` and `np.any(a < b)`. */
  predicate AnyGreater(a: Vec, b: Vec) { a.x > b.x || a.y > b.y }
  predicate AnyLess(a: Vec, b: Vec) { a.x < b.x || a.y < b.y }

  datatype Viewport = Viewport(p1: Vec, p2: Vec)

  /** `Viewport()`: the square from (-1, -1) to (1, 1). `Viewport(v)` copies `v`,
      which for a value is `v` itself. */
  function NewViewport(from: Option<Viewport>): (v: Viewport)
    ensures from.None? ==> v.p1 == Vec(-1.0, -1.0) && v.p2 == Vec(1.0, 1.0)
    ensures from.Some? ==> v == from.value
  {
    match from
    case None => Viewport(Vec(-1.0, -1.0), Vec(1.0, 1.0))
    case Some(w) => Viewport(w.p1, w.p2)
  }

  /** `__eq__`: both corners agree, which is equality of viewports as values. */
  function Equal(a: Viewport, b: Viewport): (r: bool)
    ensures r <==> a == b
  {
    a.p1.x == b.p1.x && a.p1.y == b.p1.y && a.p2.x == b.p2.x && a.p2.y == b.p2.y
  }

  /** The world extent `p2 - p1`. */
  function Extent(v: Viewport): Vec
  {
    Sub(v.p2, v.p1)
  }

  /** What the geometry reads from the drawing context: the screen rectangle,
      the viewport currently shown, and the culling margin in pixels. */
  datatype Context = Context(topleft: Vec, bottomright: Vec, viewport: Viewport, margin: Vec)

  function ScreenDim(c: Context): Vec
  {
    Sub(c.bottomright, c.topleft)
  }

  /** `world_to_screen`: the affine map sending the context viewport's corners
      onto the screen rectangle's corners. */
  function WorldToScreen(p: Vec, c: Context): (s: Vec)
    requires NonZero(Extent(c.viewport))
    ensures p == c.viewport.p1 ==> s == c.topleft
    ensures p == c.viewport.p2 ==> s == c.bottomright
  {
    Add(Mul(Div(Sub(p, c.viewport.p1), Extent(c.viewport)), ScreenDim(c)), c.topleft)
  }

  /** `screen_to_world`: the affine map sending the screen rectangle's corners
      onto the context viewport's corners. It reads only the context, not the
      viewport it is called on. */
  function ScreenToWorld(c: Context, cursor: Vec): (p: Vec)
    requires NonZero(ScreenDim(c))
    ensures cursor == c.topleft ==> p == c.viewport.p1
    ensures cursor == c.bottomright ==> p == c.viewport.p2
  {
    Add(Mul(Div(Sub(cursor, c.topleft), ScreenDim(c)), Extent(c.viewport)), c.viewport.p1)
  }

  /** One coordinate of the affine map and back: scaling by `c / b` and then
      by `b / c`, with an offset added and taken off in between, is the
      identity. */
  lemma CancelScale(a: real, off: real, b: real, c: real, off2: real)
    requires b != 0.0 && c != 0.0
    ensures ((a - off) / b * c + off2 - off2) / c * b + off == a
  {
    var q := (a - off) / b;
    assert q * c / c == q;
    assert q * b == a - off;
  }

  /** Screen to world after world to screen is the identity. */
  lemma WorldScreenWorld(c: Context, p: Vec)
    requires NonZero(ScreenDim(c)) && NonZero(Extent(c.viewport))
    ensures ScreenToWorld(c, WorldToScreen(p, c)) == p
  {
    var sd, vd := ScreenDim(c), Extent(c.viewport);
    var v1, tl := c.viewport.p1, c.topleft;
    CancelScale(p.x, v1.x, vd.x, sd.x, tl.x);
    CancelScale(p.y, v1.y, vd.y, sd.y, tl.y);
  }

  /** World to screen after screen to world is the identity. */
  lemma ScreenWorldScreen(c: Context, s: Vec)
    requires NonZero(ScreenDim(c)) && NonZero(Extent(c.viewport))
    ensures WorldToScreen(ScreenToWorld(c, s), c) == s
  {
    var sd, vd := ScreenDim(c), Extent(c.viewport);
    var v1, tl := c.viewport.p1, c.topleft;
    CancelScale(s.x, tl.x, sd.x, vd.x, v1.x);
    CancelScale(s.y, tl.y, sd.y, vd.y, v1.y);
  }

  /** The world vector a pixel delta amounts to at the context's scale. */
  function PixelsToWorld(c: Context, pixels: Vec): Vec
    requires NonZero(ScreenDim(c))
  {
    Mul(Div(pixels, ScreenDim(c)), Extent(c.viewport))
  }

  /** `pan`: move both corners of `v` by the world vector the pixel delta
      amounts to at the context's scale; the extent does not change. */
  function Pan(v: Viewport, c: Context, delta: Vec): (r: Viewport)
    requires NonZero(ScreenDim(c))
    ensures Extent(r) == Extent(v)
    ensures Sub(r.p1, v.p1) == Sub(r.p2, v.p2) == PixelsToWorld(c, delta)
  {
    var d := PixelsToWorld(c, delta);
    Viewport(Add(v.p1, d), Add(v.p2, d))
  }

  /** The context with its viewport replaced. */
  function Showing(c: Context, v: Viewport): Context
  {
    c.(viewport := v)
  }

  /** Panning the shown viewport by `delta` and then by `-delta` puts its
      corners back where they were. */
  lemma PanRoundTrip(c: Context, delta: Vec)
    requires NonZero(ScreenDim(c))
    ensures var v := Pan(c.viewport, c, delta);
      Pan(v, Showing(c, v), Neg(delta)) == c.viewport
  {
    var v := Pan(c.viewport, c, delta);
    var sd, vd := ScreenDim(c), Extent(c.viewport);
    assert Extent(v) == vd;
    assert (-delta.x) / sd.x == -(delta.x / sd.x);
    assert (-delta.y) / sd.y == -(delta.y / sd.y);
  }

  /** After panning the shown viewport by `delta`, each pixel shows the world
      point that was shown `delta` pixels further along. */
  lemma PanShiftsView(c: Context, delta: Vec, s: Vec)
    requires NonZero(ScreenDim(c))
    ensures var v := Pan(c.viewport, c, delta);
      ScreenToWorld(Showing(c, v), s) == ScreenToWorld(c, Add(s, delta))
  {
    var sd := ScreenDim(c);
    assert (s.x + delta.x - c.topleft.x) / sd.x == (s.x - c.topleft.x) / sd.x + delta.x / sd.x;
    assert (s.y + delta.y - c.topleft.y) / sd.y == (s.y - c.topleft.y) / sd.y + delta.y / sd.y;
  }

  /** The zoom step (`zoomfactor`). */
  const ZoomStep: real := 0.1

  /** `zoom`: move both corners of `v` a tenth of the way towards (zoom in)
      or away from (zoom out) the world point under the cursor: a scaling by
      0.9 or 1.1 about that point, so the extent shrinks or grows alike. */
  function Zoom(v: Viewport, c: Context, cursor: Vec, zoomIn: bool): (r: Viewport)
    requires NonZero(ScreenDim(c))
    ensures Extent(r) == Scale(Extent(v), if zoomIn then 0.9 else 1.1)
    ensures var o, k := ScreenToWorld(c, cursor), if zoomIn then 0.9 else 1.1;
      Sub(r.p1, o) == Scale(Sub(v.p1, o), k) && Sub(r.p2, o) == Scale(Sub(v.p2, o), k)
  {
    var origin := ScreenToWorld(c, cursor);
    if zoomIn then
      Viewport(Add(v.p1, Scale(Sub(origin, v.p1), ZoomStep)), Add(v.p2, Scale(Sub(origin, v.p2), ZoomStep)))
    else
      Viewport(Sub(v.p1, Scale(Sub(origin, v.p1), ZoomStep)), Sub(v.p2, Scale(Sub(origin, v.p2), ZoomStep)))
  }

  /** Zooming the shown viewport keeps the world point under the cursor under
      the cursor. */
  lemma ZoomKeepsCursor(c: Context, cursor: Vec, zoomIn: bool)
    requires NonZero(ScreenDim(c))
    ensures var v := Zoom(c.viewport, c, cursor, zoomIn);
      ScreenToWorld(Showing(c, v), cursor) == ScreenToWorld(c, cursor)
  {
    var k := if zoomIn then 0.9 else 1.1;
    var v := Zoom(c.viewport, c, cursor, zoomIn);
    var t := Div(Sub(cursor, c.topleft), ScreenDim(c));
    var o := ScreenToWorld(c, cursor);
    var vd := Extent(c.viewport);
    assert o == Add(Mul(t, vd), c.viewport.p1);
    assert Extent(v) == Scale(vd, k);
    assert v.p1 == Add(Scale(c.viewport.p1, k), Scale(o, 1.0 - k));
    assert t.x * (vd.x * k) == (t.x * vd.x) * k;
    assert t.y * (vd.y * k) == (t.y * vd.y) * k;
  }

  /** `zoomlevel`: how wide `v` is, horizontally, relative to the shown
      viewport. */
  function ZoomLevel(v: Viewport, c: Context): (z: real)
    requires Extent(c.viewport).x != 0.0
    ensures z * Extent(c.viewport).x == Extent(v).x
    ensures v == c.viewport ==> z == 1.0
  {
    Extent(v).x / Extent(c.viewport).x
  }

  /** Zooming a viewport in or out scales its zoom level by 0.9 or 1.1. */
  lemma ZoomLevelAfterZoom(v: Viewport, c: Context, cursor: Vec, zoomIn: bool)
    requires NonZero(ScreenDim(c)) && Extent(c.viewport).x != 0.0
    ensures ZoomLevel(Zoom(v, c, cursor, zoomIn), c) == ZoomLevel(v, c) * (if zoomIn then 0.9 else 1.1)
  {
    var k := if zoomIn then 0.9 else 1.1;
    var e := Extent(c.viewport).x;
    assert Extent(Zoom(v, c, cursor, zoomIn)).x == Extent(v).x * k;
    assert (Extent(v).x * k) / e == (Extent(v).x / e) * k;
  }

  /** The culling margin in world units. */
  function WorldMargin(c: Context): Vec
    requires NonZero(ScreenDim(c))
  {
    Mul(Div(c.margin, ScreenDim(c)), Extent(c.viewport))
  }

  /** `visible`: whether a frame whose viewport is `v` is worth drawing from
      the context. It is not when it lies, margin included, wholly beyond
      the shown viewport on some axis, or when relative to the shown
      viewport it is wider than the screen has pixels or narrower than one
      pixel on some axis; in every other case it is. */
  function Visible(v: Viewport, c: Context): (b: bool)
    requires NonZero(ScreenDim(c)) && NonZero(Extent(c.viewport))
    ensures AnyGreater(Sub(v.p1, WorldMargin(c)), Add(c.viewport.p2, WorldMargin(c))) ==> !b
    ensures AnyLess(Add(v.p2, WorldMargin(c)), Sub(c.viewport.p1, WorldMargin(c))) ==> !b
    ensures AnyGreater(Div(Extent(v), Extent(c.viewport)), ScreenDim(c)) ==> !b
    ensures AnyLess(Div(Extent(v), Extent(c.viewport)), Div(Vec(1.0, 1.0), ScreenDim(c))) ==> !b
    ensures !b ==>
      || AnyGreater(Sub(v.p1, WorldMargin(c)), Add(c.viewport.p2, WorldMargin(c)))
      || AnyLess(Add(v.p2, WorldMargin(c)), Sub(c.viewport.p1, WorldMargin(c)))
      || AnyGreater(Div(Extent(v), Extent(c.viewport)), ScreenDim(c))
      || AnyLess(Div(Extent(v), Extent(c.viewport)), Div(Vec(1.0, 1.0), ScreenDim(c)))
  {
    var sd := ScreenDim(c);
    var vd := Extent(c.viewport);
    var margin := Mul(Div(c.margin, sd), vd);
    if AnyGreater(Sub(v.p1, margin), Add(c.viewport.p2, margin)) then false
    else if AnyLess(Add(v.p2, margin), Sub(c.viewport.p1, margin)) then false
    else
      var ratio := Div(Extent(v), vd);
      if AnyGreater(ratio, sd) then false
      else if AnyLess(ratio, Div(Vec(1.0, 1.0), sd)) then false
      else true
  }

  /** A frame whose viewport is exactly the shown one, with its corners in
      order, a non-negative margin and a screen at least one pixel across, is
      visible. */
  lemma VisibleSelf(c: Context)
    requires c.viewport.p1.x < c.viewport.p2.x && c.viewport.p1.y < c.viewport.p2.y
    requires ScreenDim(c).x >= 1.0 && ScreenDim(c).y >= 1.0
    requires c.margin.x >= 0.0 && c.margin.y >= 0.0
    ensures Visible(c.viewport, c)
  {
    var sd, vd := ScreenDim(c), Extent(c.viewport);
    assert c.margin.x / sd.x >= 0.0 && c.margin.y / sd.y >= 0.0;
    assert WorldMargin(c).x >= 0.0 && WorldMargin(c).y >= 0.0;
    assert vd.x / vd.x == 1.0 && vd.y / vd.y == 1.0;
    assert 1.0 / sd.x <= 1.0 && 1.0 / sd.y <= 1.0;
  }

  /** Moving a frame and the shown viewport by the same world vector does not
      change whether the frame is visible. */
  lemma VisibleUnderShift(v: Viewport, c: Context, d: Vec)
    requires NonZero(ScreenDim(c)) && NonZero(Extent(c.viewport))
    ensures var shift := (w: Viewport) => Viewport(Add(w.p1, d), Add(w.p2, d));
      Visible(shift(v), Showing(c, shift(c.viewport))) == Visible(v, c)
  {
  }
}
