/** The frame bookkeeping of the first sketcher (canvas.py): a frame is an
    origin offset plus the simplified paths drawn while the canvas sat at that
    offset; the collection keeps frames in creation order together with a
    most-recently-edited order used to step between them. A frame's identity is
    its position in creation order, which never changes because this version
    never removes a frame. */
module CanvasFrames {
  import opened Util
  import opened Simplifier

  /** The tolerance `add_path` simplifies with (`COMPRESSION`). */
  const Compression: int := 5

  datatype Frame = Frame(origin: Point, paths: seq<seq<Point>>)

  /** Frame ids `0 .. n-1` in creation order. */
  function Ids(n: nat): (s: seq<nat>)
    ensures |s| == n
    ensures forall i :: 0 <= i < n ==> s[i] == i
  {
    seq(n, i => i)
  }

  lemma IdsGrow(n: nat)
    ensures Ids(n + 1) == Ids(n) + [n]
  {
  }

  /** `frames` in creation order, `mre` the same frames by recency of edit
      (most recent last), `current` the frame the user is at, if any. */
  datatype FrameCollection = FrameCollection(frames: seq<Frame>, mre: seq<nat>, current: Option<nat>)

  /** `FrameCollection()`: no frames, an empty edit order, no current frame. */
  function EmptyCollection(): (c: FrameCollection)
    ensures c.frames == [] && c.mre == [] && c.current == None
  {
    FrameCollection([], [], None)
  }

  /** `mre` is a permutation of the frame ids, and there is a current frame,
      taken from `mre`, exactly when there is some frame. */
  ghost predicate Valid(c: FrameCollection)
  {
    && multiset(c.mre) == multiset(Ids(|c.frames|))
    && (c.current.None? <==> |c.frames| == 0)
    && (c.current.Some? ==> c.current.value in c.mre && c.current.value < |c.frames|)
  }

  lemma EmptyValid()
    ensures Valid(EmptyCollection())
  {
  }

  /** Every id in `mre` names a frame. */
  lemma ValidIdsInRange(c: FrameCollection, id: nat)
    requires Valid(c) && id in c.mre
    ensures id < |c.frames|
  {
    assert id in multiset(c.mre);
  }

  /** An id occurs at most once in the ids `0 .. n-1`. */
  lemma {:induction false} IdsOnce(n: nat, x: nat)
    ensures multiset(Ids(n))[x] <= 1
    ensures x >= n ==> multiset(Ids(n))[x] == 0
  {
    if n > 0 {
      IdsOnce(n - 1, x);
      IdsGrow(n - 1);
    }
  }

  /** A permutation of the frame ids has no repeated id. */
  lemma ValidNoDup(c: FrameCollection)
    requires Valid(c)
    ensures NoDup(c.mre)
  {
    var s := c.mre;
    forall i, j | 0 <= i < j < |s|
      ensures s[i] != s[j]
    {
      if s[i] == s[j] {
        assert s == s[..i] + [s[i]] + s[i + 1..j] + [s[j]] + s[j + 1..];
        assert multiset(s)[s[i]] >= 2;
        IdsOnce(|c.frames|, s[i]);
        assert false;
      }
    }
  }

  /** `Frame.add_path`: simplify the path with `Compression` and append it. */
  method AddPath(f: Frame, path: seq<Point>) returns (g: Frame)
    ensures g.origin == f.origin
    ensures |g.paths| == |f.paths| + 1 && g.paths[..|f.paths|] == f.paths
    ensures SimplifiedFrom(Last(g.paths), path, Compression)
    ensures |path| > 0 ==> Last(g.paths)[0] == path[0] && Last(Last(g.paths)) == Last(path)
    ensures |path| <= 2 ==> Last(g.paths) == path
    ensures Last(g.paths) == Scan(path, 0, 2, Compression)
  {
    var simplified := Simplify(path, Compression);
    g := f.(paths := f.paths + [simplified]);
  }

  /** `add_frame`: the new frame goes to the end of both orders and becomes
      current. */
  function AddFrame(c: FrameCollection, f: Frame): (r: FrameCollection)
    ensures r.frames == c.frames + [f]
    ensures r.current == Some(|c.frames|) && r.frames[|c.frames|] == f
    ensures |r.mre| == |c.mre| + 1 && r.mre[..|c.mre|] == c.mre && Last(r.mre) == |c.frames|
    ensures Valid(c) ==> Valid(r)
  {
    IdsGrow(|c.frames|);
    FrameCollection(c.frames + [f], c.mre + [|c.frames|], Some(|c.frames|))
  }

  /** `touch`: move the current frame to the most-recent end of `mre`. The
      source raises unless there is a current frame listed in `mre`. */
  function Touch(c: FrameCollection): (r: FrameCollection)
    requires c.current.Some? && c.current.value in c.mre
    ensures r.frames == c.frames && r.current == c.current
    ensures |r.mre| == |c.mre| && multiset(r.mre) == multiset(c.mre)
    ensures Last(r.mre) == c.current.value
    ensures r.mre[..|r.mre| - 1] == RemoveFirst(c.mre, c.current.value)
    ensures Valid(c) ==> Valid(r)
  {
    var cur := c.current.value;
    var rest := RemoveFirst(c.mre, cur);
    assert multiset(rest + [cur]) == multiset(c.mre);
    c.(mre := rest + [cur])
  }

  /** Touching twice is the same as touching once. */
  lemma TouchIdempotent(c: FrameCollection)
    requires Valid(c) && c.current.Some?
    ensures Touch(Touch(c)) == Touch(c)
  {
    var t := Touch(c);
    ValidNoDup(t);
    RemoveLastNoDup(t.mre);
    assert t.mre == t.mre[..|t.mre| - 1] + [Last(t.mre)];
  }

  /** `prev`: step `current` one place towards the least recently edited end
      of `mre`, staying put at that end. The result flag is false only when
      there is no current frame. The source raises if `current` is not in
      `mre`. */
  function Prev(c: FrameCollection): (r: (FrameCollection, bool))
    requires c.current.Some? ==> c.current.value in c.mre
    ensures r.0.frames == c.frames && r.0.mre == c.mre
    ensures r.1 <==> c.current.Some?
    ensures !r.1 ==> r.0 == c
    ensures r.1 ==> r.0.current.Some? && r.0.current.value in c.mre
    ensures r.1 ==> var i := IndexOf(c.mre, c.current.value);
      r.0.current.value == c.mre[if i > 0 then i - 1 else 0]
  {
    if c.current.None? then (c, false)
    else
      var i := IndexOf(c.mre, c.current.value);
      if i > 0 then (c.(current := Some(c.mre[i - 1])), true)
      else (c, true)
  }

  /** `next`: step `current` one place towards the most recently edited end
      of `mre`, staying put at that end. */
  function Next(c: FrameCollection): (r: (FrameCollection, bool))
    requires c.current.Some? ==> c.current.value in c.mre
    ensures r.0.frames == c.frames && r.0.mre == c.mre
    ensures r.1 <==> c.current.Some?
    ensures !r.1 ==> r.0 == c
    ensures r.1 ==> r.0.current.Some? && r.0.current.value in c.mre
    ensures r.1 ==> var i := IndexOf(c.mre, c.current.value);
      r.0.current.value == c.mre[if i + 1 < |c.mre| then i + 1 else i]
  {
    if c.current.None? then (c, false)
    else
      var i := IndexOf(c.mre, c.current.value);
      if i + 1 < |c.mre| then (c.(current := Some(c.mre[i + 1])), true)
      else (c, true)
  }

  /** Stepping keeps the collection valid. */
  lemma StepsKeepValid(c: FrameCollection)
    requires Valid(c)
    ensures Valid(Prev(c).0) && Valid(Next(c).0)
  {
    if c.current.Some? {
      ValidIdsInRange(c, Prev(c).0.current.value);
      ValidIdsInRange(c, Next(c).0.current.value);
    }
  }

  /** Away from the ends, `next` undoes `prev` and `prev` undoes `next`; at the
      ends they do not wrap around. */
  lemma PrevNextInverse(c: FrameCollection)
    requires Valid(c) && c.current.Some?
    ensures IndexOf(c.mre, c.current.value) > 0 ==> Next(Prev(c).0).0 == c
    ensures IndexOf(c.mre, c.current.value) + 1 < |c.mre| ==> Prev(Next(c).0).0 == c
    ensures IndexOf(c.mre, c.current.value) == 0 ==> Prev(c).0 == c
    ensures IndexOf(c.mre, c.current.value) == |c.mre| - 1 ==> Next(c).0 == c
  {
    ValidNoDup(c);
    var i := IndexOf(c.mre, c.current.value);
    if i > 0 {
      IndexOfNoDup(c.mre, i - 1);
    }
    if i + 1 < |c.mre| {
      IndexOfNoDup(c.mre, i + 1);
    }
  }

  /** `at`: there is a current frame and its origin is `pos`. */
  function At(c: FrameCollection, pos: Point): (b: bool)
    requires c.current.Some? ==> c.current.value < |c.frames|
    ensures b <==> c.current.Some? && c.frames[c.current.value].origin == pos
  {
    if c.current.None? then false
    else pos == c.frames[c.current.value].origin
  }

  /** `translate`: move a point drawn at canvas offset `origin` into the frame
      of reference of offset `pos`. */
  function Translate(point: Point, origin: Point, pos: Point): (r: Point)
    ensures origin == pos ==> r == point
    ensures r.x - point.x == origin.x - pos.x && r.y - point.y == origin.y - pos.y
  {
    Point(origin.x + point.x - pos.x, origin.y + point.y - pos.y)
  }

  /** Translating there and back again is the identity. */
  lemma TranslateRoundTrip(point: Point, origin: Point, pos: Point)
    ensures Translate(Translate(point, origin, pos), pos, origin) == point
  {
  }
}
