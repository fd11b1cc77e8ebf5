/** The earlier sketcher (mk2.py). Its viewport is four numbers (offset `x`,
    `y`, zoom `z`, angle `a`); a frame shares the viewport object that was
    current when it was created, and frame reuse is decided by object
    identity. Frames and viewports are objects, so both live in heaps and are
    referred to by position; the store's own initial viewport is the first
    viewport allocated. */
module Mk2 {
  import opened Util

  datatype Viewport = Viewport(x: int, y: int, z: int, a: int)

  /** `Viewport()`: no offset, zoom 1, no angle; `Viewport(v)` copies all
      four fields of `v`. */
  function NewViewport(from: Option<Viewport>): (v: Viewport)
    ensures from.None? ==> v.x == 0 && v.y == 0 && v.z == 1 && v.a == 0
    ensures from.Some? ==> v == from.value
  {
    match from
    case None => Viewport(0, 0, 1, 0)
    case Some(w) => Viewport(w.x, w.y, w.z, w.a)
  }

  /** `subtract`: a new viewport of componentwise differences; the operands
      are values and stay as they were. Adding `w` back recovers `v`. */
  function Subtract(v: Viewport, w: Viewport): (r: Viewport)
    ensures r.x + w.x == v.x && r.y + w.y == v.y && r.z + w.z == v.z && r.a + w.a == v.a
  {
    var vp := NewViewport(Some(v));
    Viewport(vp.x - w.x, vp.y - w.y, vp.z - w.z, vp.a - w.a)
  }

  /** A viewport minus itself is all zeros; minus the default viewport it
      loses one unit of zoom. */
  lemma SubtractSelf(v: Viewport)
    ensures Subtract(v, v) == Viewport(0, 0, 0, 0)
    ensures Subtract(v, NewViewport(None)) == Viewport(v.x, v.y, v.z - 1, v.a)
  {
  }

  /** `visible`: every frame counts as visible from every viewport. */
  function Visible(v: Viewport, from: Viewport): (b: bool)
    ensures b
  {
    true
  }

  /** A drawn polyline in pointer coordinates, its colour and style tag. */
  datatype Stroke = Stroke(path: seq<(int, int)>, color: string, style: Option<string>)

  /** The colour every stroke of this version gets. */
  const StrokeColor: string := "#BCB534"

  function BlankStroke(): (s: Stroke)
    ensures s.path == [] && s.color == StrokeColor && s.style.None?
  {
    Stroke([], StrokeColor, None)
  }

  /** The stroke in progress. */
  datatype Sketch = Sketch(stroke: Stroke)

  /** `Sketch()`: an empty stroke. */
  function NewSketch(): (k: Sketch)
    ensures k.stroke == BlankStroke()
  {
    Sketch(BlankStroke())
  }

  /** `push`: extend the stroke in progress by the point `(x, y)`. */
  function Push(k: Sketch, x: int, y: int): (r: Sketch)
    ensures r.stroke.path == k.stroke.path + [(x, y)]
    ensures r.stroke.color == k.stroke.color && r.stroke.style == k.stroke.style
  {
    Sketch(k.stroke.(path := k.stroke.path + [(x, y)]))
  }

  /** A frame: a reference to the viewport object it was created under, and
      its strokes, oldest first. Timestamps are not modelled. */
  datatype Frame = Frame(viewport: nat, drawables: seq<Stroke>)

  /** `Sketch.blit`: hand the stroke in progress to `f` and start a blank one. */
  function Blit(k: Sketch, f: Frame): (r: (Sketch, Frame))
    ensures r.1.viewport == f.viewport && r.1.drawables == f.drawables + [k.stroke]
    ensures r.0 == NewSketch()
  {
    (Sketch(BlankStroke()), f.(drawables := f.drawables + [k.stroke]))
  }

  /** `Frame.pop_stroke`: remove and return the newest stroke, if any. */
  function FramePopStroke(f: Frame): (r: (Frame, Option<Stroke>))
    ensures r.0.viewport == f.viewport
    ensures |f.drawables| == 0 <==> r.1.None?
    ensures r.1.None? ==> r.0 == f
    ensures r.1.Some? ==> r.0.drawables + [r.1.value] == f.drawables
  {
    if |f.drawables| == 0 then (f, None)
    else (f.(drawables := f.drawables[..|f.drawables| - 1]), Some(Last(f.drawables)))
  }

  /** The store: its initial viewport, the current viewport once
      `initialize` has run, creation and recency orders of frames, and the
      frame and viewport objects. */
  datatype Data = Data(initial: nat, current: Option<nat>, frames: seq<nat>, lru: seq<nat>,
                       heap: seq<Frame>, viewports: seq<Viewport>)

  /** `Data()`: a fresh store whose initial viewport is a new default one. */
  function NewData(): (d: Data)
    ensures d.frames == [] && d.lru == [] && d.current.None?
    ensures d.initial < |d.viewports| && d.viewports[d.initial] == NewViewport(None)
  {
    Data(0, None, [], [], [], [NewViewport(None)])
  }

  /** `initialize`: the current viewport is the initial viewport object. */
  function Initialize(d: Data): (r: Data)
    ensures r.current == Some(d.initial) && r.initial == d.initial
    ensures r.frames == d.frames && r.lru == d.lru && r.heap == d.heap && r.viewports == d.viewports
  {
    d.(current := Some(d.initial))
  }

  /** Every reference held by the lists names an allocated frame. */
  ghost predicate Allocated(d: Data)
  {
    && (forall i :: 0 <= i < |d.frames| ==> d.frames[i] < |d.heap|)
    && (forall i :: 0 <= i < |d.lru| ==> d.lru[i] < |d.heap|)
  }

  /** The store invariant: both lists hold the same distinct frames in the
      same order. */
  ghost predicate Valid(d: Data)
  {
    && Allocated(d)
    && d.frames == d.lru
    && NoDup(d.lru)
  }

  /** Whether committing opens a new frame: when there is no frame yet or the
      OLDEST frame in recency order was not created under the current
      viewport object. */
  predicate OpensFrame(d: Data)
    requires Allocated(d) && d.current.Some?
  {
    |d.lru| == 0 || d.heap[d.lru[0]].viewport != d.current.value
  }

  /** `push_sketch`: commit the stroke in progress. A new frame sharing the
      current viewport object is appended to both lists when `OpensFrame`;
      otherwise the stroke goes to the most recent frame. The source fails
      unless `initialize` has set the current viewport. */
  function PushSketch(d: Data, k: Sketch): (r: (Data, Sketch))
    requires Allocated(d) && d.current.Some?
    ensures Allocated(r.0) && (Valid(d) ==> Valid(r.0))
    ensures r.0.initial == d.initial && r.0.current == d.current && r.0.viewports == d.viewports
    ensures |r.0.lru| > 0 && Last(r.0.lru) < |r.0.heap|
    ensures |r.0.heap[Last(r.0.lru)].drawables| > 0 && Last(r.0.heap[Last(r.0.lru)].drawables) == k.stroke
    ensures r.1 == NewSketch()
    ensures OpensFrame(d) ==>
      && r.0.frames == d.frames + [|d.heap|] && r.0.lru == d.lru + [|d.heap|]
      && r.0.heap == d.heap + [Frame(d.current.value, [k.stroke])]
    ensures !OpensFrame(d) ==>
      && r.0.frames == d.frames && r.0.lru == d.lru && |r.0.heap| == |d.heap|
      && r.0.heap[Last(d.lru)].viewport == d.heap[Last(d.lru)].viewport
      && r.0.heap[Last(d.lru)].drawables == d.heap[Last(d.lru)].drawables + [k.stroke]
      && (forall i :: 0 <= i < |d.heap| && i != Last(d.lru) ==> r.0.heap[i] == d.heap[i])
  {
    if OpensFrame(d) then
      var id := |d.heap|;
      var (k', f) := Blit(k, Frame(d.current.value, []));
      assert f == Frame(d.current.value, [k.stroke]);
      (d.(frames := d.frames + [id], lru := d.lru + [id], heap := d.heap + [f]), k')
    else
      var id := Last(d.lru);
      var (k', f) := Blit(k, d.heap[id]);
      (d.(heap := d.heap[id := f]), k')
  }

  /** `pop_frame`: with no frames, nothing; otherwise the most recent frame
      leaves both lists and is returned. */
  function PopFrame(d: Data): (r: (Data, Option<Frame>))
    requires Valid(d)
    ensures Valid(r.0)
    ensures r.0.initial == d.initial && r.0.current == d.current && r.0.heap == d.heap
    ensures r.0.viewports == d.viewports
    ensures |d.frames| == 0 <==> r.1.None?
    ensures r.1.None? ==> r.0 == d
    ensures r.1.Some? ==>
      && r.0.frames == d.frames[..|d.frames| - 1] && r.0.lru == d.lru[..|d.lru| - 1]
      && r.1.value == d.heap[Last(d.lru)]
  {
    if |d.frames| == 0 then (d, None)
    else
      var id := Last(d.lru);
      RemoveLastNoDup(d.frames);
      PrefixNoDup(d.lru, |d.lru| - 1);
      (d.(frames := RemoveFirst(d.frames, id), lru := d.lru[..|d.lru| - 1]), Some(d.heap[id]))
  }

  /** `Data.pop_stroke`: with no frames, or an empty most recent frame,
      nothing; otherwise the newest stroke of the most recent frame is
      removed and returned. */
  function PopStroke(d: Data): (r: (Data, Option<Stroke>))
    requires Valid(d)
    ensures Valid(r.0)
    ensures r.0.initial == d.initial && r.0.current == d.current && r.0.viewports == d.viewports
    ensures r.1.None? <==> |d.frames| == 0 || |d.heap[Last(d.lru)].drawables| == 0
    ensures r.1.None? ==> r.0 == d
    ensures r.1.Some? ==>
      && r.0.frames == d.frames && r.0.lru == d.lru && |r.0.heap| == |d.heap|
      && r.0.heap[Last(d.lru)].viewport == d.heap[Last(d.lru)].viewport
      && r.0.heap[Last(d.lru)].drawables + [r.1.value] == d.heap[Last(d.lru)].drawables
      && (forall i :: 0 <= i < |d.heap| && i != Last(d.lru) ==> r.0.heap[i] == d.heap[i])
  {
    if |d.frames| == 0 then (d, None)
    else
      var id := Last(d.lru);
      var (f, s) := FramePopStroke(d.heap[id]);
      (d.(heap := d.heap[id := f]), s)
  }

  /** Strokes are undone last-in first-out: popping a stroke right after
      committing one returns it, and when no frame was opened for it the store
      is back where it was. */
  lemma PushThenPopStroke(d: Data, k: Sketch)
    requires Valid(d) && d.current.Some?
    ensures var r := PopStroke(PushSketch(d, k).0);
      && r.1 == Some(k.stroke)
      && (!OpensFrame(d) ==> r.0 == d)
  {
    var d1 := PushSketch(d, k).0;
    var r := PopStroke(d1);
    var id := Last(d1.lru);
    assert d1.heap[id].drawables[..|d1.heap[id].drawables| - 1] + [k.stroke] == d1.heap[id].drawables;
    if !OpensFrame(d) {
      assert r.0.heap == d.heap;
    }
  }

  /** Frames are undone last-in first-out: popping a frame right after one
      was opened for a commit returns that frame, made under the current
      viewport and holding just the committed stroke, and restores both
      lists. */
  lemma PushThenPopFrame(d: Data, k: Sketch)
    requires Valid(d) && d.current.Some? && OpensFrame(d)
    ensures var r := PopFrame(PushSketch(d, k).0);
      && r.1 == Some(Frame(d.current.value, [k.stroke]))
      && r.0.frames == d.frames && r.0.lru == d.lru
  {
    var d1 := PushSketch(d, k).0;
    assert d1.frames[..|d1.frames| - 1] == d.frames;
  }

  /** The user's actions on the store: commit a stroke drawn through the given
      points, delete the most recent frame, undo the newest stroke. */
  datatype Op = Draw(points: seq<(int, int)>) | DeleteFrame | UndoStroke

  /** The state every reachable store is in: the current viewport is the
      initial one, the two lists agree, and there is at most one frame, made
      under the initial viewport. */
  ghost predicate Reachable(d: Data)
  {
    && Valid(d)
    && d.current == Some(d.initial)
    && |d.frames| <= 1
    && (forall i :: 0 <= i < |d.frames| ==> d.heap[d.frames[i]].viewport == d.initial)
  }

  /** The stroke drawn through `ps`, staged from a blank sketch. */
  function Drawn(k: Sketch, ps: seq<(int, int)>): Sketch
    decreases |ps|
  {
    if |ps| == 0 then k else Drawn(Push(k, ps[0].0, ps[0].1), ps[1..])
  }

  /** One action. */
  function Step(d: Data, op: Op): (r: Data)
    requires Valid(d) && d.current.Some?
    ensures Valid(r) && r.current == d.current && r.initial == d.initial
  {
    match op
    case Draw(ps) => PushSketch(d, Drawn(NewSketch(), ps)).0
    case DeleteFrame => PopFrame(d).0
    case UndoStroke => PopStroke(d).0
  }

  /** A run of actions. */
  function Run(d: Data, ops: seq<Op>): (r: Data)
    requires Valid(d) && d.current.Some?
    ensures Valid(r) && r.current == d.current && r.initial == d.initial
    decreases |ops|
  {
    if |ops| == 0 then d else Run(Step(d, ops[0]), ops[1..])
  }

  /** Each action keeps a store reachable: since nothing ever changes the
      current viewport, a commit opens a frame only when there is none. */
  lemma StepReachable(d: Data, op: Op)
    requires Reachable(d)
    ensures Reachable(Step(d, op))
  {
  }

  /** From a reachable store, no sequence of actions ever produces a second
      frame. */
  lemma {:induction false} AtMostOneFrame(d: Data, ops: seq<Op>)
    requires Reachable(d)
    ensures Reachable(Run(d, ops))
    decreases |ops|
  {
    if |ops| > 0 {
      StepReachable(d, ops[0]);
      AtMostOneFrame(Step(d, ops[0]), ops[1..]);
    }
  }

  /** `Data()` followed by `initialize`, then any actions whatever: the store
      never holds more than one frame, and its two lists stay equal. */
  lemma FreshStoreAtMostOneFrame(ops: seq<Op>)
    ensures var d := Run(Initialize(NewData()), ops);
      |d.frames| <= 1 && d.frames == d.lru
  {
    AtMostOneFrame(Initialize(NewData()), ops);
  }
}
