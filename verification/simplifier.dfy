/** The stroke simplifier of the first sketcher (canvas.py): a deviation metric
    between a sample point and the chord of two others, and a greedy one-pass
    scan that deletes samples which stay within a tolerance of a chord. */
module Simplifier {
  import opened Util

  /** A sample in integer pixel coordinates, as pointer events deliver it. */
  datatype Point = Point(x: int, y: int)

  function Abs(n: int): nat
  {
    if n < 0 then -n else n
  }

  /** Python's `round` on a finite value: the nearest integer, halves going to
      the even neighbour (banker's rounding). */
  function Round(v: real): (n: int)
    ensures -0.5 <= n as real - v <= 0.5
    ensures (n as real - v == 0.5 || v - n as real == 0.5) ==> n % 2 == 0
    ensures v == v.Floor as real ==> n == v.Floor
  {
    var f := v.Floor;
    var frac := v - f as real;
    if frac < 0.5 then f
    else if frac > 0.5 then f + 1
    else if f % 2 == 0 then f
    else f + 1
  }

  /** The deviation of `m` from the chord `f`–`l` as canvas.py measures it: along
      whichever axis the chord is not constant in, the rounded coordinate the
      chord's slope predicts from the offset `f - m`, compared with `m`'s own
      coordinate. A chord whose two ends coincide scores every point 0. */
  function Error(f: Point, m: Point, l: Point): (e: int)
    ensures e >= 0
    ensures f == l ==> e == 0
  {
    var dx := l.x - f.x;
    var dy := l.y - f.y;
    if dx != 0 then
      var slope := dy as real / dx as real;
      var y := f.y as real + slope * (f.x - m.x) as real;
      Abs(Round(y) - m.y)
    else if dy != 0 then
      var slope := dx as real / dy as real;
      var x := f.x as real + slope * (f.y - m.y) as real;
      Abs(Round(x) - m.x)
    else
      0
  }

  /** A chord's slope times its run gives back its rise. */
  lemma SlopeTimesRun(rise: int, run: int)
    requires run != 0
    ensures (rise as real / run as real) * run as real == rise as real
  {
  }

  /** The metric scores the chord's first end 0. */
  lemma ErrorAtStart(f: Point, l: Point)
    ensures Error(f, f, l) == 0
  {
  }

  /** Because the metric offsets by `f - m` rather than `m - f`, on a chord that
      is not vertical it scores the chord's own far end `2 * |dy|`. */
  lemma ErrorAtEnd(f: Point, l: Point)
    requires l.x != f.x
    ensures Error(f, l, l) == 2 * Abs(l.y - f.y)
  {
    var dx, dy := l.x - f.x, l.y - f.y;
    var slope := dy as real / dx as real;
    var y := f.y as real + slope * (f.x - l.x) as real;
    SlopeTimesRun(dy, dx);
    assert (f.x - l.x) as real == -(dx as real);
    assert slope * (f.x - l.x) as real == -(slope * dx as real);
    assert slope * (f.x - l.x) as real == -(dy as real);
    assert y == (f.y - dy) as real;
    assert Round(y) == f.y - dy;
  }

  /** For the same reason the point the metric scores 0 at the chord's far
      column is the mirror image of `l` across the vertical line through `f`. */
  lemma ErrorMirrored(f: Point, l: Point)
    requires l.x != f.x
    ensures Error(f, Point(2 * f.x - l.x, l.y), l) == 0
  {
    var dx, dy := l.x - f.x, l.y - f.y;
    var m := Point(2 * f.x - l.x, l.y);
    var slope := dy as real / dx as real;
    var y := f.y as real + slope * (f.x - m.x) as real;
    SlopeTimesRun(dy, dx);
    assert (f.x - m.x) as real == dx as real;
    assert slope * (f.x - m.x) as real == dy as real;
    assert y == l.y as real;
    assert Round(y) == l.y;
  }

  /** Every sample strictly inside window `[s, e]` of `p` is within `maxError`
      of the chord `p[s]`–`p[e]`. */
  predicate Fits(p: seq<Point>, s: nat, e: nat, maxError: int)
    requires s <= e < |p|
  {
    forall i :: s < i < e ==> Error(p[s], p[i], p[e]) <= maxError
  }

  /** `idx` lists, in increasing order, the positions in `p` that the kept
      samples `r` come from; the first and the last sample of `p` are kept. */
  ghost predicate Embeds(idx: seq<nat>, r: seq<Point>, p: seq<Point>)
  {
    && |idx| == |r|
    && (|r| == 0 <==> |p| == 0)
    && (forall k :: 0 <= k < |r| ==> idx[k] < |p| && r[k] == p[idx[k]])
    && (forall k :: 0 <= k < |r| - 1 ==> idx[k] < idx[k + 1])
    && (|r| > 0 ==> idx[0] == 0 && idx[|r| - 1] == |p| - 1)
  }

  /** Every sample of `p` dropped between two neighbouring kept samples is
      within `maxError` of their chord. */
  ghost predicate Covers(idx: seq<nat>, r: seq<Point>, p: seq<Point>, maxError: int)
    requires |idx| == |r|
  {
    forall k, j :: 0 <= k < |r| - 1 && idx[k] < j < idx[k + 1] && j < |p| ==>
      Error(r[k], p[j], r[k + 1]) <= maxError
  }

  /** `r` is a simplification of `p` within `maxError`: a subsequence keeping
      both ends, each dropped sample covered by the chord that replaced it. */
  ghost predicate SimplifiedFrom(r: seq<Point>, p: seq<Point>, maxError: int)
  {
    exists idx :: Embeds(idx, r, p) && Covers(idx, r, p, maxError)
  }

  /** Positions `0 .. n-1` of an untouched sequence. */
  function Identity(n: nat): (idx: seq<nat>)
    ensures |idx| == n
    ensures forall k :: 0 <= k < n ==> idx[k] == k
  {
    seq(n, k => k)
  }

  /** Prefix of the kept samples whose chords are already final: for each kept
      sample before `start`, everything dropped after it is covered. */
  ghost predicate SettledBefore(idx: seq<nat>, p: seq<Point>, path: seq<Point>, start: nat, maxError: int)
    requires |idx| == |p|
  {
    forall k, j :: 0 <= k < start && k + 1 < |p| && idx[k] < j < idx[k + 1] && j < |path| ==>
      Error(p[k], path[j], p[k + 1]) <= maxError
  }

  /** The loop invariant of `Simplify`: `p` is what is left of `path`, `idx`
      says where each remaining sample came from, the samples before `start`
      are settled, everything from `start` on is still untouched, and the
      window `[start, end - 1]` is known to fit once it has grown. */
  ghost predicate ScanInv(path: seq<Point>, p: seq<Point>, idx: seq<nat>, start: nat, end: nat, maxError: int)
  {
    && |idx| == |p| <= |path|
    && (|path| <= 2 ==> p == path)
    && start + 2 <= end
    && (start == 0 || start < |p|)
    && (|p| > 0 ==> idx[0] == 0)
    && (|p| == 0 <==> |path| == 0)
    && (end > start + 2 ==> end < |p| && Fits(p, start, end - 1, maxError))
    && (forall k :: 0 <= k < |p| ==> idx[k] < |path| && p[k] == path[idx[k]])
    && (forall k :: 0 <= k < |p| - 1 ==> idx[k] < idx[k + 1])
    && (forall k :: start <= k < |p| ==> idx[k] == k + (|path| - |p|))
    && SettledBefore(idx, p, path, start, maxError)
  }

  /** The scan of canvas.py as a recursive function over its state: the
      remaining samples `p` and the window `[start, end]`. One call is one
      turn of the source's loop. */
  function Scan(p: seq<Point>, start: nat, end: nat, maxError: int): seq<Point>
    requires start + 2 <= end
    decreases |p| - start, |p| - end
  {
    if end >= |p| then p
    else if Fits(p, start, end, maxError) && end + 1 < |p| then Scan(p, start, end + 1, maxError)
    else Scan(p[..start + 1] + p[end - 1..], start + 1, start + 3, maxError)
  }

  /** The greedy scan of canvas.py: widen the window `[start, end]` while all of
      its interior fits the chord and the window can still grow, otherwise
      delete the interior of the last window that fitted (everything strictly
      between `start` and `end - 1`) and restart one sample further on. Paths of
      at most two samples are returned as they are. */
  method Simplify(path: seq<Point>, maxError: int) returns (r: seq<Point>)
    ensures |path| <= 2 ==> r == path
    ensures |r| <= |path|
    ensures |path| > 0 ==> |r| > 0 && r[0] == path[0] && Last(r) == Last(path)
    ensures |path| >= 2 ==> |r| >= 2
    ensures SimplifiedFrom(r, path, maxError)
    ensures r == Scan(path, 0, 2, maxError)
  {
    var p := path;
    var start, end := 0, 2;
    while end < |p|
      invariant start + 2 <= end
      invariant Scan(p, start, end, maxError) == Scan(path, 0, 2, maxError)
      decreases |p| - start, |p| - end
    {
      if Fits(p, start, end, maxError) && end + 1 < |p| {
        ScanGrows(p, start, end, maxError);
        end := end + 1;
      } else {
        ScanCuts(p, start, end, maxError);
        p := p[..start + 1] + p[end - 1..];
        start := start + 1;
        end := start + 2;
      }
    }
    r := p;
    ScanSimplifies(path, maxError);
  }

  /** The whole scan, from its initial state, ends in a simplification of
      `path`. */
  lemma ScanSimplifies(path: seq<Point>, maxError: int)
    ensures Outcome(Scan(path, 0, 2, maxError), path, maxError)
  {
    ScanKeeps(path, path, Identity(|path|), 0, 2, maxError);
  }

  /** What `Simplify` promises about its result `r` for the input `path`. */
  ghost predicate Outcome(r: seq<Point>, path: seq<Point>, maxError: int)
  {
    && (|path| <= 2 ==> r == path)
    && |r| <= |path|
    && (|path| > 0 ==> |r| > 0 && r[0] == path[0] && Last(r) == Last(path))
    && (|path| >= 2 ==> |r| >= 2)
    && SimplifiedFrom(r, path, maxError)
  }

  /** Widening a window that fits keeps the loop invariant. */
  lemma ScanWidens(path: seq<Point>, p: seq<Point>, idx: seq<nat>, start: nat, end: nat, maxError: int)
    requires ScanInv(path, p, idx, start, end, maxError)
    requires end + 1 < |p| && Fits(p, start, end, maxError)
    ensures ScanInv(path, p, idx, start, end + 1, maxError)
  {
  }

  /** Whatever state the scan is in, if it satisfies the loop invariant then
      the scan ends in a simplification of `path`. */
  lemma {:induction false} ScanKeeps(path: seq<Point>, p: seq<Point>, idx: seq<nat>, start: nat, end: nat, maxError: int)
    requires ScanInv(path, p, idx, start, end, maxError)
    ensures Outcome(Scan(p, start, end, maxError), path, maxError)
    decreases |p| - start, |p| - end, 2
  {
    if end >= |p| {
      ScanDone(p, idx, path, start, end, maxError);
    } else if Fits(p, start, end, maxError) && end + 1 < |p| {
      ScanKeepsWiden(path, p, idx, start, end, maxError);
    } else {
      ScanKeepsCut(path, p, idx, start, end, maxError);
    }
  }

  /** `ScanKeeps` for a turn that widens the window. */
  lemma {:induction false} ScanKeepsWiden(path: seq<Point>, p: seq<Point>, idx: seq<nat>, start: nat, end: nat, maxError: int)
    requires ScanInv(path, p, idx, start, end, maxError)
    requires end + 1 < |p| && Fits(p, start, end, maxError)
    ensures Outcome(Scan(p, start, end, maxError), path, maxError)
    decreases |p| - start, |p| - end, 1
  {
    ScanWidenTurn(path, p, idx, start, end, maxError);
    ScanKeepsAfter(path, idx, p, start, end, p, start, end + 1, maxError);
  }

  /** `ScanKeeps` for a turn that deletes the interior of the window. */
  lemma {:induction false} ScanKeepsCut(path: seq<Point>, p: seq<Point>, idx: seq<nat>, start: nat, end: nat, maxError: int)
    requires ScanInv(path, p, idx, start, end, maxError) && end < |p|
    requires !(Fits(p, start, end, maxError) && end + 1 < |p|)
    ensures Outcome(Scan(p, start, end, maxError), path, maxError)
    decreases |p| - start, |p| - end, 1
  {
    ScanCutTurn(path, p, idx, start, end, maxError);
    ScanKeepsAfter(path, idx[..start + 1] + idx[end - 1..], p, start, end, p[..start + 1] + p[end - 1..], start + 1, start + 3, maxError);
  }

  /** `ScanKeeps` across one turn, from `(p, start, end)` to the state
      `(p', start', end')` it moves to, which satisfies the invariant with
      positions `idx'`. */
  lemma {:induction false} ScanKeepsAfter(path: seq<Point>, idx': seq<nat>, p: seq<Point>, start: nat, end: nat,
                                          p': seq<Point>, start': nat, end': nat, maxError: int)
    requires start + 2 <= end && ScanInv(path, p', idx', start', end', maxError)
    requires Scan(p', start', end', maxError) == Scan(p, start, end, maxError)
    ensures Outcome(Scan(p, start, end, maxError), path, maxError)
    decreases |p'| - start', |p'| - end', 3
  {
    ScanKeeps(path, p', idx', start', end', maxError);
    OutcomeOfEqual(Scan(p', start', end', maxError), Scan(p, start, end, maxError), path, maxError);
  }

  /** Equal results have the same outcome. */
  lemma OutcomeOfEqual(r: seq<Point>, r': seq<Point>, path: seq<Point>, maxError: int)
    requires r == r' && Outcome(r, path, maxError)
    ensures Outcome(r', path, maxError)
  {
  }

  /** A turn that widens a fitting window keeps the loop invariant and the
      outcome of the scan. */
  lemma ScanWidenTurn(path: seq<Point>, p: seq<Point>, idx: seq<nat>, start: nat, end: nat, maxError: int)
    requires ScanInv(path, p, idx, start, end, maxError)
    requires end + 1 < |p| && Fits(p, start, end, maxError)
    ensures ScanInv(path, p, idx, start, end + 1, maxError)
    ensures Scan(p, start, end + 1, maxError) == Scan(p, start, end, maxError)
  {
    ScanGrows(p, start, end, maxError);
    ScanWidens(path, p, idx, start, end, maxError);
  }

  /** A turn that deletes the interior of the window keeps the loop
      invariant and the outcome of the scan. */
  lemma ScanCutTurn(path: seq<Point>, p: seq<Point>, idx: seq<nat>, start: nat, end: nat, maxError: int)
    requires ScanInv(path, p, idx, start, end, maxError) && end < |p|
    requires !(Fits(p, start, end, maxError) && end + 1 < |p|)
    ensures ScanInv(path, p[..start + 1] + p[end - 1..], idx[..start + 1] + idx[end - 1..], start + 1, start + 3, maxError)
    ensures Scan(p[..start + 1] + p[end - 1..], start + 1, start + 3, maxError) == Scan(p, start, end, maxError)
  {
    ScanCuts(p, start, end, maxError);
    ScanDrop(path, p, idx, start, end, maxError);
  }

  /** A turn that widens the window leaves the scan's outcome as it was. */
  lemma ScanGrows(p: seq<Point>, start: nat, end: nat, maxError: int)
    requires start + 2 <= end && end + 1 < |p| && Fits(p, start, end, maxError)
    ensures Scan(p, start, end + 1, maxError) == Scan(p, start, end, maxError)
  {
  }

  /** So does a turn that deletes the interior of the last fitting window. */
  lemma ScanCuts(p: seq<Point>, start: nat, end: nat, maxError: int)
    requires start + 2 <= end < |p| && !(Fits(p, start, end, maxError) && end + 1 < |p|)
    ensures Scan(p[..start + 1] + p[end - 1..], start + 1, start + 3, maxError) == Scan(p, start, end, maxError)
  {
  }

  /** Deleting the interior of the last fitting window re-establishes the
      invariant one sample further on. */
  lemma ScanDrop(path: seq<Point>, p: seq<Point>, idx: seq<nat>, start: nat, end: nat, maxError: int)
    requires ScanInv(path, p, idx, start, end, maxError) && end < |p|
    ensures ScanInv(path, p[..start + 1] + p[end - 1..], idx[..start + 1] + idx[end - 1..], start + 1, start + 3, maxError)
  {
    DropInterior(p, idx, path, start, end, maxError);
    DropKeepsOrigin(p, idx, path, start, end);
  }

  /** Once the window has run off the end, every kept sample from `start` on
      is consecutive in `path`, so the whole result is settled. */
  lemma ScanDone(p: seq<Point>, idx: seq<nat>, path: seq<Point>, start: nat, end: nat, maxError: int)
    requires ScanInv(path, p, idx, start, end, maxError) && end >= |p|
    ensures |path| <= 2 ==> p == path
    ensures |p| <= |path|
    ensures |path| > 0 ==> |p| > 0 && p[0] == path[0] && Last(p) == Last(path)
    ensures |path| >= 2 ==> |p| >= 2
    ensures SimplifiedFrom(p, path, maxError)
  {
    assert Embeds(idx, p, path) && Covers(idx, p, path, maxError);
  }

  /** One deletion step of `Simplify` keeps every kept sample tied to its
      origin in `path`, in increasing order, and the unscanned tail contiguous. */
  lemma DropKeepsOrigin(p: seq<Point>, idx: seq<nat>, path: seq<Point>, start: nat, end: nat)
    requires |idx| == |p| <= |path|
    requires start + 2 <= end < |p|
    requires forall k :: 0 <= k < |p| ==> idx[k] < |path| && p[k] == path[idx[k]]
    requires forall k :: 0 <= k < |p| - 1 ==> idx[k] < idx[k + 1]
    requires forall k :: start <= k < |p| ==> idx[k] == k + (|path| - |p|)
    ensures var p', idx' := p[..start + 1] + p[end - 1..], idx[..start + 1] + idx[end - 1..];
      && |idx'| == |p'|
      && (forall k :: 0 <= k < |p'| ==> idx'[k] < |path| && p'[k] == path[idx'[k]])
      && (forall k :: 0 <= k < |p'| - 1 ==> idx'[k] < idx'[k + 1])
      && (forall k :: start + 1 <= k < |p'| ==> idx'[k] == k + (|path| - |p'|))
  {
    var p', idx' := p[..start + 1] + p[end - 1..], idx[..start + 1] + idx[end - 1..];
    var shift := end - start - 2;
    Splice(p, start, end);
    Splice(idx, start, end);
    forall k | 0 <= k < |p'|
      ensures idx'[k] < |path| && p'[k] == path[idx'[k]]
    {
      if k > start {
        assert idx'[k] == idx[k + shift] && p'[k] == p[k + shift];
      }
    }
    forall k | 0 <= k < |p'| - 1
      ensures idx'[k] < idx'[k + 1]
    {
      if k == start {
        assert idx'[k + 1] == idx[end - 1];
      } else if k > start {
        assert idx'[k] == idx[k + shift] && idx'[k + 1] == idx[k + 1 + shift];
      }
    }
    forall k | start + 1 <= k < |p'|
      ensures idx'[k] == k + (|path| - |p'|)
    {
      assert idx'[k] == idx[k + shift];
    }
  }

  /** Cutting `s[start + 1 .. end - 1]` out of `s` shifts every later entry
      down by the length of the cut. */
  lemma Splice<T>(s: seq<T>, start: nat, end: nat)
    requires start + 2 <= end <= |s|
    ensures var s' := s[..start + 1] + s[end - 1..];
      && |s'| == |s| - (end - start - 2)
      && (forall k :: 0 <= k <= start ==> s'[k] == s[k])
      && (forall k :: start < k < |s'| ==> s'[k] == s[k + (end - start - 2)])
  {
  }

  /** One deletion step of `Simplify` keeps the samples before `start` settled
      and settles the chord from `start` to the old `end - 1`. */
  lemma DropInterior(p: seq<Point>, idx: seq<nat>, path: seq<Point>, start: nat, end: nat, maxError: int)
    requires |idx| == |p| <= |path|
    requires start + 2 <= end < |p|
    requires end > start + 2 ==> Fits(p, start, end - 1, maxError)
    requires forall k :: 0 <= k < |p| ==> idx[k] < |path| && p[k] == path[idx[k]]
    requires forall k :: start <= k < |p| ==> idx[k] == k + (|path| - |p|)
    requires SettledBefore(idx, p, path, start, maxError)
    ensures SettledBefore(idx[..start + 1] + idx[end - 1..], p[..start + 1] + p[end - 1..], path, start + 1, maxError)
  {
    var p' := p[..start + 1] + p[end - 1..];
    var idx' := idx[..start + 1] + idx[end - 1..];
    assert p'[start] == p[start] && p'[start + 1] == p[end - 1];
    assert idx'[start] == idx[start] && idx'[start + 1] == idx[end - 1];
    forall k, j | 0 <= k < start + 1 && k + 1 < |p'| && idx'[k] < j < idx'[k + 1] && j < |path|
      ensures Error(p'[k], path[j], p'[k + 1]) <= maxError
    {
      if k < start {
        assert p'[k] == p[k] && p'[k + 1] == p[k + 1];
        assert idx'[k] == idx[k] && idx'[k + 1] == idx[k + 1];
      } else {
        var t := j - idx[start];
        assert 0 < t < end - 1 - start;
        assert idx[start + t] == j;
        assert path[j] == p[start + t];
      }
    }
  }

  /** A path is flat when all its samples lie on one horizontal line. */
  predicate Flat(p: seq<Point>)
  {
    forall i :: 0 <= i < |p| ==> p[i].y == p[0].y
  }

  /** On a flat path every sample is 0 away from every chord, so any window
      fits any non-negative tolerance. */
  lemma FlatFits(p: seq<Point>, s: nat, e: nat, maxError: int)
    requires Flat(p) && s <= e < |p| && maxError >= 0
    ensures Fits(p, s, e, maxError)
  {
    forall i | s < i < e
      ensures Error(p[s], p[i], p[e]) <= maxError
    {
      assert p[s].y == p[i].y == p[e].y == p[0].y;
    }
  }

  /** From any window starting at the first sample, the scan of a flat path
      of at least four samples keeps the first sample and the last two. */
  lemma {:induction false} FlatScanFrom(p: seq<Point>, end: nat, maxError: int)
    requires Flat(p) && |p| >= 4 && maxError >= 0
    requires 2 <= end <= |p| - 1
    ensures Scan(p, 0, end, maxError) == [p[0], p[|p| - 2], p[|p| - 1]]
    decreases |p| - end
  {
    FlatFits(p, 0, end, maxError);
    if end + 1 < |p| {
      FlatScanFrom(p, end + 1, maxError);
    } else {
      var q := p[..1] + p[end - 1..];
      assert q == [p[0], p[|p| - 2], p[|p| - 1]];
      assert Scan(q, 1, 3, maxError) == q;
    }
  }

  /** The scan does compress: a flat stroke of `n >= 4` samples comes out as
      three, its first sample and its last two. The greedy window only grows
      while it can still grow, so the deletion happens one sample short of the
      end and the second-to-last sample is always kept. */
  lemma FlatRunKeepsPenultimate(p: seq<Point>, maxError: int)
    requires Flat(p) && |p| >= 4 && maxError >= 0
    ensures Scan(p, 0, 2, maxError) == [p[0], p[|p| - 2], p[|p| - 1]]
  {
    FlatScanFrom(p, 2, maxError);
  }
}
