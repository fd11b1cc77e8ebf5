/** The frame store of the second sketcher (logic.py). Strokes are committed
    into the most recent frame when its viewport equals the present one, and
    otherwise into a new frame of that viewport; the store lists its
    frames both in creation order (`frames`) and by recency (`lru`).
    Frames are mutable objects shared by the two lists, so they live in a
    `heap` and the lists hold references (heap positions); a popped frame
    stays allocated but unreachable; reclaiming it would not change anything
    the store does. */
module FrameStore {
  import opened Util
  import opened Viewports

  /** A drawn polyline with its colour, optional style tag and line width. */
  datatype Stroke = Stroke(path: seq<Vec>, color: string, style: Option<string>, width: int)

  /** The line width of strokes drawn through the sketch (`Sketch.width`). */
  const SketchWidth: int := 3

  /** The colour a new sketch starts with. */
  const DefaultColor: string := "#BCB534"

  /** The stroke in progress and the colour new strokes get. */
  datatype Sketch = Sketch(color: string, stroke: Stroke)

  /** An empty stroke in `color`, as staging is reset to after each commit. */
  function Blank(color: string): (s: Stroke)
    ensures s.path == [] && s.color == color && s.style.None? && s.width == SketchWidth
  {
    Stroke([], color, None, SketchWidth)
  }

  /** `Sketch()`: an empty stroke in the default colour. */
  function NewSketch(): (k: Sketch)
    ensures k.color == DefaultColor && k.stroke == Blank(DefaultColor)
  {
    Sketch(DefaultColor, Blank(DefaultColor))
  }

  /** `set_color`: new strokes, and the one in progress, take `color`. */
  function SetColor(k: Sketch, color: string): (r: Sketch)
    ensures r.color == color && r.stroke.color == color
    ensures r.stroke.path == k.stroke.path && r.stroke.style == k.stroke.style && r.stroke.width == k.stroke.width
  {
    Sketch(color, k.stroke.(color := color))
  }

  /** `push`: extend the stroke in progress by one point. */
  function Push(k: Sketch, p: Vec): (r: Sketch)
    ensures r.stroke.path == k.stroke.path + [p]
    ensures r.color == k.color && r.stroke.color == k.stroke.color
    ensures r.stroke.style == k.stroke.style && r.stroke.width == k.stroke.width
  {
    k.(stroke := k.stroke.(path := k.stroke.path + [p]))
  }

  /** Pushing the points `ps` one after another. */
  function PushAll(k: Sketch, ps: seq<Vec>): Sketch
    decreases |ps|
  {
    if |ps| == 0 then k else PushAll(Push(k, ps[0]), ps[1..])
  }

  /** Pushing a run of points appends exactly that run, in order, to the
      stroke in progress and changes nothing else. */
  lemma {:induction false} PushAllAppends(k: Sketch, ps: seq<Vec>)
    ensures PushAll(k, ps).stroke.path == k.stroke.path + ps
    ensures PushAll(k, ps).color == k.color
    ensures PushAll(k, ps).stroke.(path := []) == k.stroke.(path := [])
    decreases |ps|
  {
    if |ps| > 0 {
      PushAllAppends(Push(k, ps[0]), ps[1..]);
      assert k.stroke.path + [ps[0]] + ps[1..] == k.stroke.path + ps;
    }
  }

  /** A frame: the viewport it was created in and its strokes, oldest first.
      Creation and modification timestamps are not modelled. */
  datatype Frame = Frame(viewport: Viewport, drawables: seq<Stroke>)

  /** `Frame(viewport)`: a frame holding its own copy of the viewport. */
  function NewFrame(v: Viewport): (f: Frame)
    ensures f.viewport == v && f.drawables == []
  {
    Frame(NewViewport(Some(v)), [])
  }

  /** `Frame.pop_stroke`: remove and return the newest stroke, or nothing if
      the frame is empty. */
  function FramePopStroke(f: Frame): (r: (Frame, Option<Stroke>))
    ensures r.0.viewport == f.viewport
    ensures |f.drawables| == 0 <==> r.1.None?
    ensures r.1.None? ==> r.0 == f
    ensures r.1.Some? ==> r.0.drawables + [r.1.value] == f.drawables
  {
    if |f.drawables| == 0 then (f, None)
    else (f.(drawables := f.drawables[..|f.drawables| - 1]), Some(Last(f.drawables)))
  }

  /** `Sketch.blit`: hand the stroke in progress to `f` and start a blank one
      in the same colour. */
  function Blit(k: Sketch, f: Frame): (r: (Sketch, Frame))
    ensures r.1.viewport == f.viewport && r.1.drawables == f.drawables + [k.stroke]
    ensures r.0.color == k.color && r.0.stroke == Blank(k.color)
  {
    (Sketch(k.color, Blank(k.color)), f.(drawables := f.drawables + [k.stroke]))
  }

  /** Creation order, recency order, and the frame objects they refer to. */
  datatype Data = Data(frames: seq<nat>, lru: seq<nat>, heap: seq<Frame>)

  /** `Data()`: no frames. */
  function NewData(): (d: Data)
    ensures d.frames == [] && d.lru == []
  {
    Data([], [], [])
  }

  /** Every reference held by the lists names an allocated frame. */
  ghost predicate Allocated(d: Data)
  {
    && (forall i :: 0 <= i < |d.frames| ==> d.frames[i] < |d.heap|)
    && (forall i :: 0 <= i < |d.lru| ==> d.lru[i] < |d.heap|)
  }

  /** The store invariant: both lists hold the same distinct frames in the
      same order. */
  ghost predicate Valid(d: Data)
  {
    && Allocated(d)
    && d.frames == d.lru
    && NoDup(d.lru)
  }

  lemma NewDataValid()
    ensures Valid(NewData())
  {
  }

  /** Whether committing in viewport `v` opens a new frame: when there is no
      frame yet or the most recent one was created in a different viewport. */
  predicate OpensFrame(d: Data, v: Viewport)
    requires Allocated(d)
  {
    |d.lru| == 0 || !Equal(d.heap[Last(d.lru)].viewport, v)
  }

  /** `push_sketch`: commit the stroke in progress, drawn in viewport `v`. A
      new frame for `v` is appended to both lists when there is no frame yet
      or the most recent one belongs to another viewport; either way the
      stroke ends up last in the most recent frame, which belongs to `v`, and
      staging starts over with a blank stroke in the same colour. */
  function PushSketch(d: Data, k: Sketch, v: Viewport): (r: (Data, Sketch))
    requires Allocated(d)
    ensures Allocated(r.0)
    ensures Valid(d) ==> Valid(r.0)
    ensures |r.0.lru| > 0 && Last(r.0.lru) < |r.0.heap|
    ensures r.0.heap[Last(r.0.lru)].viewport == v
    ensures |r.0.heap[Last(r.0.lru)].drawables| > 0 && Last(r.0.heap[Last(r.0.lru)].drawables) == k.stroke
    ensures r.1.color == k.color && r.1.stroke == Blank(k.color)
    ensures OpensFrame(d, v) ==>
      && r.0.frames == d.frames + [|d.heap|] && r.0.lru == d.lru + [|d.heap|]
      && r.0.heap == d.heap + [Frame(v, [k.stroke])]
    ensures !OpensFrame(d, v) ==>
      && r.0.frames == d.frames && r.0.lru == d.lru
      && |r.0.heap| == |d.heap|
      && r.0.heap[Last(d.lru)].drawables == d.heap[Last(d.lru)].drawables + [k.stroke]
      && (forall i :: 0 <= i < |d.heap| && i != Last(d.lru) ==> r.0.heap[i] == d.heap[i])
  {
    if OpensFrame(d, v) then
      var id := |d.heap|;
      var (k', f) := Blit(k, NewFrame(v));
      assert f == Frame(v, [k.stroke]);
      (Data(d.frames + [id], d.lru + [id], d.heap + [f]), k')
    else
      var id := Last(d.lru);
      var (k', f) := Blit(k, d.heap[id]);
      (d.(heap := d.heap[id := f]), k')
  }

  /** `pop_frame`: with no frames, nothing; otherwise the most recent frame
      leaves both lists and is returned. */
  function PopFrame(d: Data): (r: (Data, Option<Frame>))
    requires Valid(d)
    ensures Valid(r.0) && r.0.heap == d.heap
    ensures |d.frames| == 0 <==> r.1.None?
    ensures r.1.None? ==> r.0 == d
    ensures r.1.Some? ==>
      && r.0.frames == d.frames[..|d.frames| - 1] && r.0.lru == d.lru[..|d.lru| - 1]
      && r.1.value == d.heap[Last(d.lru)]
  {
    if |d.frames| == 0 then (d, None)
    else
      var id := Last(d.lru);
      RemoveLastNoDup(d.frames);
      PrefixNoDup(d.lru, |d.lru| - 1);
      (Data(RemoveFirst(d.frames, id), d.lru[..|d.lru| - 1], d.heap), Some(d.heap[id]))
  }

  /** `Data.pop_stroke`: with no frames, or an empty most recent frame,
      nothing; otherwise the newest stroke of the most recent frame is
      removed and returned, and nothing else changes. */
  function PopStroke(d: Data): (r: (Data, Option<Stroke>))
    requires Valid(d)
    ensures Valid(r.0)
    ensures r.1.None? <==> |d.frames| == 0 || |d.heap[Last(d.lru)].drawables| == 0
    ensures r.1.None? ==> r.0 == d
    ensures r.1.Some? ==>
      && r.0.frames == d.frames && r.0.lru == d.lru && |r.0.heap| == |d.heap|
      && r.0.heap[Last(d.lru)].viewport == d.heap[Last(d.lru)].viewport
      && r.0.heap[Last(d.lru)].drawables + [r.1.value] == d.heap[Last(d.lru)].drawables
      && (forall i :: 0 <= i < |d.heap| && i != Last(d.lru) ==> r.0.heap[i] == d.heap[i])
  {
    if |d.frames| == 0 then (d, None)
    else
      var id := Last(d.lru);
      var (f, s) := FramePopStroke(d.heap[id]);
      (d.(heap := d.heap[id := f]), s)
  }

  /** Strokes are undone last-in first-out: popping a stroke right after
      committing one returns that stroke, and when no frame was opened for it
      the store is back where it was. */
  lemma PushThenPopStroke(d: Data, k: Sketch, v: Viewport)
    requires Valid(d)
    ensures var r := PopStroke(PushSketch(d, k, v).0);
      && r.1 == Some(k.stroke)
      && (!OpensFrame(d, v) ==> r.0 == d)
      && (OpensFrame(d, v) ==> r.0 == Data(d.frames + [|d.heap|], d.lru + [|d.heap|], d.heap + [Frame(v, [])]))
  {
    var d1 := PushSketch(d, k, v).0;
    var r := PopStroke(d1);
    var id := Last(d1.lru);
    assert d1.heap[id].drawables[..|d1.heap[id].drawables| - 1] + [k.stroke] == d1.heap[id].drawables;
    if !OpensFrame(d, v) {
      assert r.0.heap == d.heap;
    } else {
      assert r.0.heap == d.heap + [Frame(v, [])];
    }
  }

  /** Frames are undone last-in first-out: popping a frame right after one was
      opened for a commit returns that frame, holding just the committed
      stroke, and restores both lists. */
  lemma PushThenPopFrame(d: Data, k: Sketch, v: Viewport)
    requires Valid(d) && OpensFrame(d, v)
    ensures var r := PopFrame(PushSketch(d, k, v).0);
      && r.1 == Some(Frame(v, [k.stroke]))
      && r.0.frames == d.frames && r.0.lru == d.lru
  {
    var d1 := PushSketch(d, k, v).0;
    assert d1.frames[..|d1.frames| - 1] == d.frames;
  }

  /** Two commits in the same viewport land in one frame, one after the
      other; the second opens no frame. */
  lemma SameViewportSameFrame(d: Data, k1: Sketch, k2: Sketch, v: Viewport)
    requires Valid(d)
    ensures var d1 := PushSketch(d, k1, v).0;
      var d2 := PushSketch(d1, k2, v).0;
      && !OpensFrame(d1, v)
      && d2.frames == d1.frames && Last(d2.lru) == Last(d1.lru)
      && var ds := d2.heap[Last(d2.lru)].drawables;
         |ds| >= 2 && ds[|ds| - 2] == k1.stroke && ds[|ds| - 1] == k2.stroke
  {
  }

  /** A commit in a viewport other than that of the most recent frame opens a
      new frame, which becomes the most recent. */
  lemma OtherViewportNewFrame(d: Data, k1: Sketch, k2: Sketch, v1: Viewport, v2: Viewport)
    requires Valid(d) && v1 != v2
    ensures var d1 := PushSketch(d, k1, v1).0;
      var d2 := PushSketch(d1, k2, v2).0;
      && OpensFrame(d1, v2)
      && |d2.frames| == |d1.frames| + 1
      && d2.heap[Last(d2.lru)].viewport == v2
      && d2.heap[d2.lru[|d2.lru| - 2]].viewport == v1
  {
  }

  /** Starting from an empty store: committing a stroke gives one frame
      holding just that stroke; undoing the stroke leaves that frame, empty;
      undoing the frame leaves no frames. */
  lemma CommitUndoFromEmpty(k: Sketch, v: Viewport)
    ensures var d1 := PushSketch(NewData(), k, v).0;
      var d2 := PopStroke(d1).0;
      var d3 := PopFrame(d2).0;
      && d1.frames == [0] && d1.heap[0] == Frame(v, [k.stroke])
      && d2.frames == [0] && d2.heap[0] == Frame(v, [])
      && d3.frames == [] && d3.lru == []
  {
    PushThenPopStroke(NewData(), k, v);
  }
}
