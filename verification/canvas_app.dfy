/** The event handlers of the first sketcher (canvas.py) as transitions of one
    explicit application state: the canvas offset `pos`, the anchor of a drag
    in progress, the stroke being drawn, and the frame collection. Redrawing
    after each event is presentation and leaves the state alone. */
module CanvasApp {
  import opened Util
  import opened Simplifier
  import opened CanvasFrames

  datatype State = State(pos: Point, anchor: Point, staged: seq<Point>, coll: FrameCollection)

  /** The state at start-up: offset and anchor at the origin, nothing drawn. */
  function Initial(): (s: State)
    ensures s.pos == Point(0, 0) && s.anchor == Point(0, 0)
    ensures s.coll.frames == [] && s.staged == []
    ensures Valid(s.coll)
  {
    State(Point(0, 0), Point(0, 0), [], EmptyCollection())
  }

  /** Right button pressed: remember where the drag starts. */
  function StartMove(s: State, x: int, y: int): (t: State)
    ensures t.anchor == Point(x, y)
    ensures t.pos == s.pos && t.staged == s.staged && t.coll == s.coll
  {
    s.(anchor := Point(x, y))
  }

  /** Right button dragged (or released): the offset moves against the pointer
      by the distance covered since the anchor, which follows the pointer. */
  function ContinueMove(s: State, x: int, y: int): (t: State)
    ensures t.anchor == Point(x, y)
    ensures t.pos.x - s.pos.x == s.anchor.x - x && t.pos.y - s.pos.y == s.anchor.y - y
    ensures t.staged == s.staged && t.coll == s.coll
  {
    State(Point(s.pos.x + s.anchor.x - x, s.pos.y + s.anchor.y - y), Point(x, y), s.staged, s.coll)
  }

  /** Releasing the right button does the same as dragging it. */
  function StopMove(s: State, x: int, y: int): (t: State)
    ensures t == ContinueMove(s, x, y)
  {
    State(Point(s.pos.x + s.anchor.x - x, s.pos.y + s.anchor.y - y), Point(x, y), s.staged, s.coll)
  }

  /** A drag through the pointer positions `ps`, one motion event each. */
  function Drag(s: State, ps: seq<Point>): State
    decreases |ps|
  {
    if |ps| == 0 then s else Drag(ContinueMove(s, ps[0].x, ps[0].y), ps[1..])
  }

  /** However the pointer wanders, a drag moves the offset by the net distance
      from the first anchor to the final pointer position, and nothing but the
      offset and the anchor changes. */
  lemma {:induction false} DragTelescopes(s: State, ps: seq<Point>)
    requires |ps| > 0
    ensures Drag(s, ps).pos == Point(s.pos.x + s.anchor.x - Last(ps).x, s.pos.y + s.anchor.y - Last(ps).y)
    ensures Drag(s, ps).anchor == Last(ps)
    ensures Drag(s, ps).staged == s.staged && Drag(s, ps).coll == s.coll
    decreases |ps|
  {
    var t := ContinueMove(s, ps[0].x, ps[0].y);
    if |ps| > 1 {
      DragTelescopes(t, ps[1..]);
      assert Last(ps[1..]) == Last(ps);
    }
  }

  /** Left button pressed: a new stroke starts at the pointer. */
  function StartDraw(s: State, x: int, y: int): (t: State)
    ensures t.staged == [Point(x, y)]
    ensures t.pos == s.pos && t.anchor == s.anchor && t.coll == s.coll
  {
    s.(staged := [Point(x, y)])
  }

  /** Left button dragged: the pointer position extends the stroke. */
  function ContinueDraw(s: State, x: int, y: int): (t: State)
    ensures t.staged == s.staged + [Point(x, y)]
    ensures t.pos == s.pos && t.anchor == s.anchor && t.coll == s.coll
  {
    s.(staged := s.staged + [Point(x, y)])
  }

  /** The frame a stroke finished at `pos` goes to: the current frame if it
      sits at `pos`, otherwise a new empty frame opened there. */
  function OpenFrameAt(c: FrameCollection, pos: Point): (r: FrameCollection)
    requires Valid(c)
    ensures Valid(r) && At(r, pos)
    ensures |r.frames| == |c.frames| + (if At(c, pos) then 0 else 1)
    ensures r.frames[..|c.frames|] == c.frames
    ensures At(c, pos) ==> r == c
    ensures !At(c, pos) ==> r.frames[r.current.value].paths == []
    ensures !At(c, pos) ==>
      r.current == Some(|c.frames|) && r.mre == c.mre + [|c.frames|] && r.frames[|c.frames|] == Frame(pos, [])
  {
    if At(c, pos) then c else AddFrame(c, Frame(pos, []))
  }

  /** Replace the current frame by its edited version `f` (same origin) and
      mark it most recently edited. */
  function Commit(c: FrameCollection, f: Frame): (r: FrameCollection)
    requires Valid(c) && c.current.Some?
    requires f.origin == c.frames[c.current.value].origin
    ensures Valid(r)
    ensures r.current == c.current && Last(r.mre) == c.current.value
    ensures |r.mre| == |c.mre| && r.mre[..|r.mre| - 1] == RemoveFirst(c.mre, c.current.value)
    ensures r.frames == c.frames[c.current.value := f]
  {
    Touch(c.(frames := c.frames[c.current.value := f]))
  }

  /** Left button released: the final point ends the stroke; unless the
      current frame sits at the present offset a new frame is opened there;
      the simplified stroke is added to the current frame, which becomes the
      most recently edited one; the staging area is emptied. */
  method StopDraw(s: State, x: int, y: int) returns (t: State)
    requires Valid(s.coll)
    ensures Valid(t.coll)
    ensures t.pos == s.pos && t.anchor == s.anchor && t.staged == []
    ensures At(t.coll, t.pos)
    ensures t.coll.current.Some? && Last(t.coll.mre) == t.coll.current.value
    ensures |t.coll.frames| == |s.coll.frames| + (if At(s.coll, s.pos) then 0 else 1)
    ensures At(s.coll, s.pos) ==> t.coll.current == s.coll.current
    ensures var cur := t.coll.current.value;
      var before := if At(s.coll, s.pos) then s.coll.frames[cur].paths else [];
      && |t.coll.frames[cur].paths| == |before| + 1
      && t.coll.frames[cur].paths[..|before|] == before
      && SimplifiedFrom(Last(t.coll.frames[cur].paths), s.staged + [Point(x, y)], Compression)
      && Last(t.coll.frames[cur].paths) == Scan(s.staged + [Point(x, y)], 0, 2, Compression)
    ensures forall i :: 0 <= i < |s.coll.frames| && Some(i) != t.coll.current ==>
      t.coll.frames[i] == s.coll.frames[i]
    ensures At(s.coll, s.pos) ==>
      t.coll.mre == RemoveFirst(s.coll.mre, s.coll.current.value) + [s.coll.current.value]
    ensures !At(s.coll, s.pos) ==> t.coll.mre == s.coll.mre + [|s.coll.frames|]
  {
    var c := OpenFrameAt(s.coll, s.pos);
    var cur := c.current.value;
    var f := AddPath(c.frames[cur], s.staged + [Point(x, y)]);
    var r := Commit(c, f);
    CommitPlacesStroke(s.coll, s.pos, c, f, r);
    CommitKeepsOthers(s.coll, s.pos, c, f, r);
    CommitReorders(s.coll, s.pos, f);
    t := State(s.pos, s.anchor, [], r);
  }

  /** After opening `c` from `c0` at `pos` and committing the edited frame
      `f` as `r`: `r` is at `pos`, its current frame is the most recently
      edited, the frame count grew only if a frame had to be opened, and the
      current frame is `f`, whose paths extend those the frame had in `c0`
      (none when it is new) by exactly one. */
  lemma CommitPlacesStroke(c0: FrameCollection, pos: Point, c: FrameCollection, f: Frame, r: FrameCollection)
    requires Valid(c0) && c == OpenFrameAt(c0, pos)
    requires f.origin == c.frames[c.current.value].origin
    requires |f.paths| == |c.frames[c.current.value].paths| + 1
    requires f.paths[..|c.frames[c.current.value].paths|] == c.frames[c.current.value].paths
    requires r == Commit(c, f)
    ensures Valid(r) && At(r, pos)
    ensures r.current == c.current && Last(r.mre) == r.current.value
    ensures |r.frames| == |c0.frames| + (if At(c0, pos) then 0 else 1)
    ensures r.frames[r.current.value] == f
    ensures var before := if At(c0, pos) then c0.frames[r.current.value].paths else [];
      && |f.paths| == |before| + 1
      && f.paths[..|before|] == before
  {
    assert r.frames == c.frames[c.current.value := f];
    if At(c0, pos) {
      assert c == c0;
    } else {
      assert c.frames[c.current.value].paths == [];
    }
  }

  /** Opening and committing leaves every other frame of `c0` as it was, and
      keeps the current frame when none had to be opened. */
  lemma CommitKeepsOthers(c0: FrameCollection, pos: Point, c: FrameCollection, f: Frame, r: FrameCollection)
    requires Valid(c0) && c == OpenFrameAt(c0, pos)
    requires f.origin == c.frames[c.current.value].origin
    requires r == Commit(c, f)
    ensures At(c0, pos) ==> r.current == c0.current
    ensures forall i :: 0 <= i < |c0.frames| && Some(i) != r.current ==> r.frames[i] == c0.frames[i]
  {
    UpdateKeepsOthers(c0.frames, c.frames, c.current.value, f);
  }

  /** Opening and committing moves the current frame, when it sits at `pos`,
      to the most recent end of the edit order, the others keeping their
      relative order; a frame that had to be opened is simply appended. */
  lemma CommitReorders(c0: FrameCollection, pos: Point, f: Frame)
    requires Valid(c0) && f.origin == pos
    ensures var r := Commit(OpenFrameAt(c0, pos), f);
      && (At(c0, pos) ==> r.mre == RemoveFirst(c0.mre, c0.current.value) + [c0.current.value])
      && (!At(c0, pos) ==> r.mre == c0.mre + [|c0.frames|])
  {
    if At(c0, pos) {
      CommitMovesLast(c0, pos, f);
    } else {
      CommitAppends(c0, pos, f);
    }
  }

  /** A stroke added to the current frame at `pos` moves that frame to the
      most recent end of the edit order. */
  lemma CommitMovesLast(c0: FrameCollection, pos: Point, f: Frame)
    requires Valid(c0) && At(c0, pos) && f.origin == pos
    ensures Commit(OpenFrameAt(c0, pos), f).mre == RemoveFirst(c0.mre, c0.current.value) + [c0.current.value]
  {
    var r := Commit(c0, f);
    assert r.mre == r.mre[..|r.mre| - 1] + [Last(r.mre)];
  }

  /** A frame opened for a stroke is appended to the edit order, which is
      otherwise unchanged. */
  lemma CommitAppends(c0: FrameCollection, pos: Point, f: Frame)
    requires Valid(c0) && !At(c0, pos) && f.origin == pos
    ensures Commit(OpenFrameAt(c0, pos), f).mre == c0.mre + [|c0.frames|]
  {
    var n := |c0.frames|;
    var c := OpenFrameAt(c0, pos);
    var r := Commit(c, f);
    assert c.mre == c0.mre + [n] && c.current == Some(n);
    assert r.mre == r.mre[..|r.mre| - 1] + [Last(r.mre)];
    if n in c0.mre {
      ValidIdsInRange(c0, n);
    }
    RemoveAppended(c0.mre, n);
  }

  /** Replacing entry `cur` of a sequence that extends `before` leaves every
      other entry of `before` as it was. */
  lemma UpdateKeepsOthers(before: seq<Frame>, extended: seq<Frame>, cur: nat, f: Frame)
    requires |before| <= |extended| && extended[..|before|] == before && cur < |extended|
    ensures forall i :: 0 <= i < |before| && i != cur ==> extended[cur := f][i] == before[i]
  {
    forall i | 0 <= i < |before| && i != cur
      ensures extended[cur := f][i] == before[i]
    {
      assert extended[..|before|][i] == extended[i];
    }
  }

  /** `next_frame`: step to the next more recently edited frame and move the
      offset to its origin; with no frames nothing changes. */
  function NextFrame(s: State): (t: State)
    requires Valid(s.coll)
    ensures Valid(t.coll)
    ensures t.coll.frames == s.coll.frames && t.coll.mre == s.coll.mre
    ensures t.anchor == s.anchor && t.staged == s.staged
    ensures s.coll.current.None? ==> t == s
    ensures s.coll.current.Some? ==> var i := IndexOf(s.coll.mre, s.coll.current.value);
      t.coll.current == Some(s.coll.mre[if i + 1 < |s.coll.mre| then i + 1 else i])
    ensures s.coll.current.Some? ==> t.pos == t.coll.frames[t.coll.current.value].origin
    ensures s.coll.current.Some? ==> At(t.coll, t.pos)
  {
    StepsKeepValid(s.coll);
    var (c, ok) := Next(s.coll);
    if ok then
      s.(pos := c.frames[c.current.value].origin, coll := c)
    else s.(coll := c)
  }

  /** `prev_frame`: step to the next less recently edited frame and move the
      offset to its origin; with no frames nothing changes. */
  function PrevFrame(s: State): (t: State)
    requires Valid(s.coll)
    ensures Valid(t.coll)
    ensures t.coll.frames == s.coll.frames && t.coll.mre == s.coll.mre
    ensures t.anchor == s.anchor && t.staged == s.staged
    ensures s.coll.current.None? ==> t == s
    ensures s.coll.current.Some? ==> var i := IndexOf(s.coll.mre, s.coll.current.value);
      t.coll.current == Some(s.coll.mre[if i > 0 then i - 1 else 0])
    ensures s.coll.current.Some? ==> t.pos == t.coll.frames[t.coll.current.value].origin
    ensures s.coll.current.Some? ==> At(t.coll, t.pos)
  {
    StepsKeepValid(s.coll);
    var (c, ok) := Prev(s.coll);
    if ok then
      s.(pos := c.frames[c.current.value].origin, coll := c)
    else s.(coll := c)
  }
}
