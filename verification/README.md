# Infinite-canvas sketcher: a Dafny model of its core

This project models the core of a small freehand sketching program. The
program exists in three versions, and each is modelled by its own Dafny modules:

- `canvas.py`, the first version. The canvas pans by integer pixel offsets.
  A stroke is simplified by a greedy one-pass scan before it is stored.
  Strokes are grouped into frames, each with the offset it was opened at. A
  finished stroke goes to the current frame if that frame sits at the
  present offset, and otherwise to a newly opened frame; other frames at the
  same offset are not looked for.
  A frame collection keeps the frames in creation order and in
  most-recently-edited order, and stepping between frames walks that order.
  - `Simplifier`: the deviation metric `error` and the scan `simplify`.
  - `CanvasFrames`: `Frame.add_path`, `FrameCollection` and `translate`.
  - `CanvasApp`: the pointer and key handlers, as transitions of one
    explicit application state.
- `logic.py`, the second version. A viewport is a rectangle of the world
  with real-valued corners. It maps affinely onto the screen, and it pans and
  zooms about the cursor. Each frame records the viewport it was opened in. A
  stroke joins the most recent frame if that frame's viewport equals the
  present one, and otherwise opens a new frame. Strokes and frames can be
  undone.
  - `Viewports`: the viewport geometry.
  - `FrameStore`: `Frame`, `Data` and `Sketch`.
- `mk2.py`, an earlier version. Its viewport is four numbers. A frame shares
  the viewport object it was made under, and frame reuse is decided by object
  identity.
  - `Mk2` models this version.
- `Util`: the generator `pairs` (identical in all three files), plus list
  helpers (`index`, `remove`).

Modelling decisions:

- Mutable objects that two lists share are modelled by identity. A
  `canvas.py` frame is its creation index, which never changes because that
  version never removes a frame. `logic.py` and `mk2.py` frames live in a
  heap sequence, and the lists hold positions in it. In `mk2.py` the
  viewports live in a heap too, so an `is` test becomes an equality of
  positions.
- Python's floats are modelled as Dafny `real`s. Python's `round` is
  written out as round-half-to-even.
- Where the source raises an exception, the model has a precondition
  instead. Examples are `list.remove` or `list.index` of a missing element.
  The "nothing there" results are modelled as results, for example
  `pop_frame` on an empty store returns `None`.
- The `logic.py` coordinate maps divide by the screen size and by the
  viewport's extent. On numpy arrays a zero divisor yields infinity or NaN
  rather than an exception. The `Viewports` members therefore require those
  divisors to be non-zero (`NonZero`), which leaves out exactly the inputs on
  which numpy would produce infinity or NaN. `canvas.py`'s `error` tests its
  divisors itself, so `Simplifier.Error` has no such precondition.

Facts about the code that the model keeps as written:

- **Simplification metric.** `error` is not a perpendicular point-to-line
  distance. It predicts a rounded coordinate from the chord's slope and the
  offset `f - m` (not `m - f`), and takes the absolute difference. Lemmas
  `Simplifier.ErrorAtEnd` and `Simplifier.ErrorMirrored` state what it does
  at the chord's far column.
- **No idempotence.** Because of that metric, nothing makes a second
  `simplify` pass leave a simplified path alone, so the model does not state
  idempotence.
- **Navigation at the ends.** `prev` and `next` stop at the ends of the
  edit order instead of wrapping around. `CanvasFrames.PrevNextInverse`
  states exactly that.
- **No bounding boxes, colour aggregation or interpolated transitions.**
  None of the three files computes any of them.
- **Frame reuse in `mk2.py`.** That version checks the OLDEST frame, by
  identity, but adds strokes to the NEWEST one. `Mk2.FreshStoreAtMostOneFrame`
  proves that, starting from a fresh store, the store never holds more than
  one frame, so the two frames never differ.

## Model

| member | source | states |
|---|---|---|
| Util.Pairs | canvas.py:93-101 | The consecutive pairs of the list: none for an empty list. Pair `i` is `(l[i], l[i+1])`. With `loop`, one more pair closes the polyline back to `l[0]`. There are `len-1` pairs, plus one with `loop`. (logic.py:8-16 and mk2.py:8-16 are the same function.) |
| Util.IndexOf | canvas.py:71 | `list.index`: a position holding `x`, with no earlier occurrence of `x`. |
| Util.RemoveFirst | canvas.py:67 | `list.remove`: one fewer element. The multiset of elements loses exactly one `x`. |
| Util.RemoveFirstKeepsOrder | canvas.py:67 | `list.remove` deletes the first occurrence of `x` and nothing else: if `i` is the position of the first `x`, the result is the elements before `i` followed by those after it, in order. |
| Util.RemoveAppended | canvas.py:62-67 | Removing an element that was appended to a list not holding it gives back that list. |
| Simplifier.Round | canvas.py:15 | Python `round`: the result is within one half of the argument. Ties go to the even neighbour. Integers map to themselves. |
| Simplifier.Error | canvas.py:7-21 | The deviation is never negative. A chord whose ends coincide scores every point 0. |
| Simplifier.ErrorAtStart | canvas.py:11-15 | The metric scores the chord's first end 0. |
| Simplifier.ErrorAtEnd | canvas.py:11-15 | Because the offset is `f - m`, a non-vertical chord scores its own far end `2*abs(dy)`. |
| Simplifier.ErrorMirrored | canvas.py:11-15 | The point the metric scores 0 at the far column is the far end mirrored across the vertical line through the first end. |
| Simplifier.Simplify | canvas.py:23-34 | Paths of at most two samples are unchanged. The result is a subsequence that keeps the first and last sample, and at least two samples when the input had two. Every dropped sample is within the tolerance of the chord between its kept neighbours. The result is the one `Scan` computes turn by turn. |
| Simplifier.ScanKeeps | canvas.py:23-34 | From any state satisfying the loop invariant, the scan ends in a simplification of the path that keeps both ends, has at least two samples when the path had two, and leaves paths of at most two samples alone. |
| Simplifier.FlatRunKeepsPenultimate | canvas.py:23-34 | For any non-negative tolerance, a horizontal run of four or more samples simplifies to its first, second-to-last and last sample. The window grows while the chord fits and `end+1 < len(path)`, so the penultimate sample is never dropped. |
| CanvasFrames.AddPath | canvas.py:42-46 | The frame gains exactly one path, at the end, and keeps its origin. The new path is the result of `simplify` with `COMPRESSION` (5), which is a simplification of the given path, keeping its ends. |
| CanvasFrames.EmptyCollection | canvas.py:58-61 | `FrameCollection()` holds no frames, an empty edit order and no current frame. |
| CanvasFrames.EmptyValid | canvas.py:58-61 | A fresh collection satisfies the invariant: `mre` is a permutation of the frames, and there is a current frame, listed in `mre`, exactly when there are frames. |
| CanvasFrames.AddFrame | canvas.py:62-65 | The frame is appended to both orders and becomes current. The invariant is preserved. |
| CanvasFrames.Touch | canvas.py:66-68 | The current frame's first entry in `mre` is removed and the frame is appended last. The other entries keep their relative order. Frames and current frame are unchanged, and the invariant is preserved. |
| CanvasFrames.TouchIdempotent | canvas.py:66-68 | Touching twice is touching once. |
| CanvasFrames.Prev | canvas.py:69-74 | Reports false exactly when there is no current frame, and then nothing changes. Otherwise the current frame moves one place towards the least recently edited end of `mre`, staying put at index 0. |
| CanvasFrames.Next | canvas.py:75-80 | The mirror image of `Prev`, towards the most recently edited end. |
| CanvasFrames.StepsKeepValid | canvas.py:69-80 | Stepping either way preserves the collection invariant. |
| CanvasFrames.PrevNextInverse | canvas.py:69-80 | Away from the ends, `next` undoes `prev` and `prev` undoes `next`. At the ends they do not wrap around. |
| CanvasFrames.At | canvas.py:81-83 | True exactly when there is a current frame and its origin is `pos`. |
| CanvasFrames.Translate | canvas.py:103-107 | The point moves by `origin - pos`. It is unchanged when the two offsets agree. |
| CanvasFrames.TranslateRoundTrip | canvas.py:103-107 | Translating from `origin` to `pos` and back is the identity. |
| CanvasApp.Initial | canvas.py:88-91 | Start-up state: offset and anchor at (0,0), no frames, nothing staged, and the collection invariant holds. |
| CanvasApp.StartMove | canvas.py:124-128 | The anchor moves to the pointer. Nothing else changes. |
| CanvasApp.ContinueMove | canvas.py:129-134 | The offset moves against the pointer by the distance covered since the anchor. The anchor follows the pointer. |
| CanvasApp.StopMove | canvas.py:135-140 | Releasing the button has the same effect as a drag event. |
| CanvasApp.DragTelescopes | canvas.py:129-134 | Over any run of drag events, the offset moves by the net distance from the first anchor to the last pointer position. |
| CanvasApp.StartDraw | canvas.py:142-146 | The staged stroke becomes just the pointer position. |
| CanvasApp.ContinueDraw | canvas.py:147-150 | The pointer position is appended to the staged stroke. |
| CanvasApp.OpenFrameAt | canvas.py:154-155 | Unless the current frame is at the offset, a new empty frame `Frame(pos, [])` is opened there. It gets the next id, becomes current, and is appended to the most recent end of `mre`. Afterwards the collection is at the offset and still valid. |
| CanvasApp.Commit | canvas.py:156-157 | The edited frame replaces the current one, which moves to the most recent end of `mre`. The other entries of `mre` keep their relative order. |
| CanvasApp.StopDraw | canvas.py:151-159 | The collection stays valid and ends at the offset, and the current frame is most recently edited. A frame is added exactly when the current frame was not at the offset. That frame gains one path: the result of `simplify` on the staged stroke plus the final point, which is a simplification of it. Every other frame is unchanged, and staging is emptied. When the current frame sits at the offset, it moves to the most recent end of `mre`, the others keeping their relative order. A newly opened frame is appended to `mre`, which is otherwise unchanged. |
| CanvasApp.CommitPlacesStroke | canvas.py:154-157 | After opening and committing, the stroke's frame is current, at the offset and most recently edited. It extends the paths it had by exactly one. |
| CanvasApp.CommitKeepsOthers | canvas.py:154-157 | Opening and committing leave every other frame alone, and keep the current frame when none was opened. |
| CanvasApp.CommitReorders | canvas.py:154-157 | When the current frame sits at the offset, opening and committing move it to the most recent end of `mre`, the others keeping their relative order. A frame that had to be opened is simply appended. |
| CanvasApp.CommitMovesLast | canvas.py:154-157 | When the current frame sits at the offset, committing a stroke to it takes its first entry out of `mre` and appends it last, the others keeping their order. |
| CanvasApp.CommitAppends | canvas.py:154-157 | When a frame has to be opened, the edit order after committing is the old one plus the new frame's id at the end. |
| CanvasApp.NextFrame | canvas.py:161-165 | The current frame becomes the entry after it in `mre`, or stays put at the most recent end. The offset becomes that frame's origin. With no frames nothing changes. Frames and `mre` are untouched, and the invariant is preserved. |
| CanvasApp.PrevFrame | canvas.py:166-170 | The current frame becomes the entry before it in `mre`, or stays put at the least recent end. The offset becomes that frame's origin. With no frames nothing changes. Frames and `mre` are untouched, and the invariant is preserved. |
| Viewports.NewViewport | logic.py:19-25 | The default viewport is the square from (-1,-1) to (1,1). Copying gives an equal viewport. |
| Viewports.Equal | logic.py:26-27 | Corner-wise comparison is exactly equality of viewports. |
| Viewports.WorldToScreen | logic.py:28-33 | The viewport's corners map onto the screen rectangle's corners. |
| Viewports.ScreenToWorld | logic.py:34-40 | The screen rectangle's corners map onto the viewport's corners. |
| Viewports.WorldScreenWorld | logic.py:28-40 | Screen-to-world after world-to-screen is the identity. |
| Viewports.ScreenWorldScreen | logic.py:28-40 | World-to-screen after screen-to-world is the identity. |
| Viewports.Pan | logic.py:41-48 | Both corners move by the world equivalent of the pixel delta. The extent is unchanged. |
| Viewports.PanRoundTrip | logic.py:41-48 | Panning by a delta and then by its negation restores the viewport. |
| Viewports.PanShiftsView | logic.py:34-48 | After panning the shown viewport, each pixel shows what the pixel `delta` further along showed before. |
| Viewports.Zoom | logic.py:49-57 | Both corners are scaled about the world point under the cursor, by 0.9 when zooming in and by 1.1 when zooming out. The extent scales alike. |
| Viewports.ZoomKeepsCursor | logic.py:49-57 | Zooming the shown viewport keeps the world point under the cursor under the cursor. |
| Viewports.ZoomLevel | logic.py:58-61 | The horizontal extent relative to the shown viewport. It is 1 for the shown viewport itself. |
| Viewports.ZoomLevelAfterZoom | logic.py:49-61 | Zooming scales the zoom level by 0.9 or 1.1. |
| Viewports.Visible | logic.py:64-79 | Not visible exactly when one of four tests holds: beyond the shown viewport on some axis, margin included, on either side; relatively larger than the screen's pixel count; or smaller than one pixel. |
| Viewports.VisibleSelf | logic.py:64-79 | The shown viewport itself is visible, given ordered corners, a non-negative margin and a screen at least one pixel wide. |
| Viewports.VisibleUnderShift | logic.py:64-79 | Visibility is unchanged when the frame and the shown viewport move by the same vector. |
| FrameStore.Blank | logic.py:172 | The stroke staging is reset to: empty, in the sketch's colour, no style, width 3. |
| FrameStore.NewSketch | logic.py:159-163 | A new sketch is an empty stroke in the default colour `#BCB534`. |
| FrameStore.SetColor | logic.py:164-166 | The sketch and the stroke in progress take the colour. The path is untouched. |
| FrameStore.Push | logic.py:167-168 | The point is appended to the stroke in progress. |
| FrameStore.PushAllAppends | logic.py:167-168 | Pushing a run of points appends exactly that run, in order, and changes nothing else. |
| FrameStore.NewFrame | logic.py:106-110 | A new frame has a copy of the viewport and no strokes. |
| FrameStore.FramePopStroke | logic.py:112-114 | Returns nothing exactly when the frame is empty. Otherwise the newest stroke is removed and returned. |
| FrameStore.Blit | logic.py:169-172 | The stroke in progress is appended to the frame. Staging restarts blank in the same colour. |
| FrameStore.NewData | logic.py:121-125 | `Data()` holds no frames in either list. |
| FrameStore.NewDataValid | logic.py:121-125 | A fresh store satisfies the invariant: both lists hold the same distinct frames, in the same order. |
| FrameStore.PushSketch | logic.py:130-137 | A frame is opened exactly when there is none or the most recent one has a different viewport. The stroke ends last in the most recent frame, which has the given viewport. The invariant is preserved, and other frames are untouched. |
| FrameStore.PopFrame | logic.py:138-142 | Returns nothing exactly when there are no frames. Otherwise the most recent frame leaves both lists and is returned. |
| FrameStore.PopStroke | logic.py:143-146 | Returns nothing exactly when there is no frame or the most recent one is empty. Otherwise that frame's newest stroke is removed and returned, and nothing else changes. |
| FrameStore.PushThenPopStroke | logic.py:130-146 | Undoing a stroke right after committing it returns that stroke. The store is restored, apart from the frame opened for it, which is now empty. |
| FrameStore.PushThenPopFrame | logic.py:130-142 | Undoing a frame right after one was opened returns it, holding just the stroke, and restores both lists. |
| FrameStore.SameViewportSameFrame | logic.py:130-137 | Two commits in the same viewport land in one frame, in order. |
| FrameStore.OtherViewportNewFrame | logic.py:130-137 | A commit in another viewport opens a new frame, which becomes the most recent. |
| FrameStore.CommitUndoFromEmpty | logic.py:121-146 | From an empty store: commit gives one frame holding the stroke. Undoing the stroke leaves it empty. Undoing the frame leaves no frames. |
| Mk2.NewViewport | mk2.py:19-29 | The default is offset (0,0), zoom 1, angle 0. Copying gives an equal viewport. |
| Mk2.Subtract | mk2.py:30-36 | Componentwise difference: adding the subtrahend back restores the original. |
| Mk2.SubtractSelf | mk2.py:30-36 | A viewport minus itself is zero. Minus the default, it loses one unit of zoom. |
| Mk2.Visible | mk2.py:37-39 | Every frame is visible. |
| Mk2.BlankStroke | mk2.py:100 | A new stroke is empty, coloured `#BCB534`, with no style. |
| Mk2.NewSketch | mk2.py:99-100 | A new sketch holds a blank stroke. |
| Mk2.Push | mk2.py:101-102 | The point is appended to the stroke in progress. |
| Mk2.Blit | mk2.py:103-106 | The stroke is appended to the frame, and staging restarts blank. |
| Mk2.FramePopStroke | mk2.py:57-59 | Returns nothing exactly when the frame is empty. Otherwise the newest stroke is removed and returned. |
| Mk2.NewData | mk2.py:66-71 | A fresh store has no frames. Its initial viewport is a new default one. |
| Mk2.Initialize | mk2.py:72-76 | The current viewport becomes the initial viewport object, and the initial viewport stays the same. The lists, frames and viewports are unchanged (the `resolution` write is left out). |
| Mk2.PushSketch | mk2.py:77-84 | A frame sharing the current viewport is opened exactly when there is none, or the oldest frame was not made under the current viewport object. Otherwise the stroke goes to the newest frame, which keeps its viewport, and every other frame is unchanged. The viewports and the current viewport are unchanged, and the invariant is preserved. |
| Mk2.PopFrame | mk2.py:85-89 | Returns nothing exactly when there are no frames. Otherwise the most recent frame leaves both lists and is returned. The frames and viewports themselves are unchanged. |
| Mk2.PopStroke | mk2.py:90-93 | Returns nothing exactly when there is no frame or the most recent one is empty. Otherwise its newest stroke is removed and returned, and the frame keeps its viewport. Every other frame and all viewports are unchanged. |
| Mk2.PushThenPopStroke | mk2.py:77-93 | Undoing a stroke right after committing it returns it, and restores the store when no frame was opened. |
| Mk2.PushThenPopFrame | mk2.py:77-89 | Undoing a frame right after one was opened returns it, made under the current viewport and holding just the stroke. Both lists are restored. |
| Mk2.Step | mk2.py:77-93 | Every store operation preserves the invariant and the current viewport. |
| Mk2.StepReachable | mk2.py:77-93 | Every store operation keeps a reachable store reachable. |
| Mk2.AtMostOneFrame | mk2.py:77-93 | From a reachable store, no run of operations produces a second frame. |
| Mk2.FreshStoreAtMostOneFrame | mk2.py:66-93 | After `Data()` and `initialize`, any run of commits and undos leaves at most one frame. The two lists stay equal. |

## Left out

- Rendering is not modelled. This covers every `render`, `plot`, the Tk
  window, widgets and event bindings, and the `undo` and `redo` handlers of
  `canvas.py`, which only redraw. They draw and change no model state.
- Persistence with `pickle` is not modelled. It is I/O at the program's
  boundary.
- Frame timestamps (`time.time()`) and `print` diagnostics are not modelled.
  They are clock and console effects that no operation reads back.
- The `resolution` attribute, set to 500 by `initialize` in both `logic.py`
  (logic.py:129) and `mk2.py` (mk2.py:75), is not modelled. Nothing reads
  it, so the `logic.py` `initialize` has no modelled effect.
- The `mk2.py` event handlers are not modelled one by one. They are the
  tkinter callbacks `delete_frame`, `undo_stroke`, the three draw handlers
  and `quit`. `Mk2.Step` models the store actions the first five perform.
  `quit`, the `Context` class and `main` are window and persistence plumbing.
- Floating point: all `logic.py` geometry is on exact reals, so rounding error
  and NaN/infinity are not modelled.
- Exceptions: a Python exception (`ValueError`, `IndexError`) is a
  precondition of the model. The exception itself is not a result.
- Simplifier.Simplify: the `for ... path.pop(start+1)` loop is modelled by its
  net effect, removing the slice between `start` and `end - 1` in one step.
  It states which samples may be dropped and equates the result with `Scan`,
  not that the result is the shortest possible one.
- Util.Pairs: the generator is modelled as the full list it yields, so
  laziness is not modelled.
- Mk2.AtMostOneFrame: the operation runs cover commits with arbitrary
  points, frame undo and stroke undo. `mk2.py` has no operation that changes
  the current viewport.
