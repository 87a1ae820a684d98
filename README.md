# Random walker writes — a verified model

`processing/random_walker_writes.py` is an interactive sketch. Each character key
spawns a glyph one short random step away from the previous glyph, along one axis.
Steps wrap across a 20-pixel border at the canvas edges, and no new glyph lands within
18 pixels of an existing one. If 50 standard steps (20–35 px) all collide, 50 "hyper"
steps (100–400 px) are tried. If those fail too, the key is dropped.

Enter toggles between two actions. The first lays the glyphs out in typewriter rows:
a 15 px advance from a left margin of 50, rows 30 px apart starting at y = 100, and a
wrap once the cursor passes `width - 50`. The second clears the canvas. Backspace
removes the newest glyph.

The model is in four modules:

- `Glyphs` (`glyphs.dfy`): the glyph record reduced to its character and position.
- `Layout` (`layout.dfy`): the typewriter layout in closed form. Glyph `i` sits in row
  `i / k` and column `i % k`, where `k` is the number of columns that fit. The lemmas
  about the layout are here too.
- `Jump` (`jump.dfy`): the parts of one placement attempt. These are the signed step,
  the wrap-around and the squared-distance collision test.
- `Walker` (`walker.dfy`): the sketch's global state as a class `Sketch`.
  - Its fields are `letters`, `isOrganized`, `tempX` and `tempY`, with the canvas size
    as constants.
  - Its methods are `OrganizeText`, `AttemptJump` and `KeyPressed`. The search part of
    `KeyPressed` is in `FindSpot`, and each of its two retry loops is a `JumpPhase`.
  - Each method is imperative and proved against the specification functions
    `Organized`, `Target`, `Clear`, `FirstClear` and `Placement`.
  - `Valid()` is the class invariant, and every key press preserves it. It is stated on
    values by `Layered`. The glyphs form a prefix still at its layout slots, followed by
    glyphs that each keep the safe distance from every older glyph. When the canvas is
    at least 40×40, those later glyphs also lie between the borders.

The random draws are inputs. A `Draw` is a direction (±1), a step length and an axis.
`KeyPressed` receives the 50 draws of each phase, and each draw's length must lie in
that phase's range, as `random.randint` guarantees. The sketch uses a 420×280 canvas
(`processing/random_walker_writes.py:20`); in the model the width and height are
constructor parameters.

The layout pass does not keep glyphs on the canvas. Rows continue below the bottom edge
once there are more than the visible rows can hold. So only the jump-placed glyphs are
bounded by the border, and `Valid()` says so. Laid-out glyphs are also only 15 px apart,
which is less than the 18 px safe distance. So the separation invariant covers only the
glyphs typed since the last layout pass.

## Model

| member | source | states |
|---|---|---|
| `Layout.Columns` | processing/random_walker_writes.py:81-100 | glyphs per row: at least one; the cursor after the last column is past `width - 50`, and the last column is not (when there is more than one) |
| `Layout.Slot` | processing/random_walker_writes.py:84-100 | the cursor position for glyph i: x from the left margin up to, not including, one advance past the last column of the row; y at or below the top margin |
| `Layout.Organized` | processing/random_walker_writes.py:88-91 | the layout pass keeps the list length and every character in order, changing positions only |
| `Layout.SlotStep` | processing/random_walker_writes.py:93-100 | the next glyph's slot is 15 to the right on the same row unless that passes `width - 50`, in which case it is x = 50 exactly 30 lower |
| `Layout.SlotFirst` | processing/random_walker_writes.py:84-85 | the first glyph goes to (50, 100) |
| `Layout.SlotOnGrid` | processing/random_walker_writes.py:77-100 | every laid-out x is 50 plus a multiple of 15 and at most `width - 50` (when width >= 100); every y is 100 plus a multiple of 30 |
| `Layout.SlotsIncrease` | processing/random_walker_writes.py:88-100 | slots are strictly increasing in (y, x) reading order along the list |
| `Layout.RowsDescend` | processing/random_walker_writes.py:96-100 | y never decreases along the laid-out list |
| `Layout.OrganizedDistinct` | processing/random_walker_writes.py:88-100 | after the layout pass no two glyphs share a position |
| `Layout.OrganizedIdempotent` | processing/random_walker_writes.py:75-100 | laying out an already laid-out list changes nothing |
| `Jump.Step` | processing/random_walker_writes.py:203-212 | the unwrapped candidate differs from the previous glyph on exactly one axis (the drawn one), by the drawn step length |
| `Jump.Wrap` | processing/random_walker_writes.py:214-218 | on an axis at least 40 long the wrapped coordinate lies in [20, extent-20]; an in-range coordinate is kept; past the far border it becomes 20, before the near one extent-20 |
| `Jump.Target` | processing/random_walker_writes.py:203-218 | the wrapped candidate lies between the borders on a canvas at least 40x40, and equals the unwrapped step when that is already inside |
| `Jump.DistSq` | processing/random_walker_writes.py:222 | the squared distance between candidate and glyph is zero exactly when they are at the same position |
| `Jump.Clear` | processing/random_walker_writes.py:221-224 | the collision test passes when the candidate is at least safe_dist from every glyph; with a positive safe_dist no glyph then sits at the candidate |
| `Walker.FirstClear` | processing/random_walker_writes.py:170-175 | one retry phase: None exactly when every attempt collides; otherwise the wrapped target of the first non-colliding attempt, at safe distance from every glyph and inside the border |
| `Walker.Placement` | processing/random_walker_writes.py:158-186 | an empty canvas gets its centre; otherwise the spot is clear of every glyph and inside the border; no spot exactly when the canvas is non-empty and all 50 standard and all 50 hyper attempts collide |
| `Walker.PlacementByPhase` | processing/random_walker_writes.py:167-186 | on a non-empty canvas the standard phase's first clear spot is taken when there is one, otherwise the hyper phase's; any spot is the wrapped step of one of the draws from the newest glyph |
| `Walker.LayeredAppend` | processing/random_walker_writes.py:188-189 | appending a glyph clear of all others and inside the border keeps the layered invariant |
| `Walker.LayeredDropLast` | processing/random_walker_writes.py:131-132 | popping the newest glyph keeps the layered invariant, with the laid-out prefix cut to the new length |
| `Walker.LayeredOrganized` | processing/random_walker_writes.py:88-100 | after the layout pass the whole list is the laid-out prefix of the invariant |
| `Walker.Sketch.constructor` | processing/random_walker_writes.py:4 | the initial globals: an empty `letters` (:4), `is_organized` false (:107), `temp_x`/`temp_y` 0 (:196-197), the canvas size given (:20); the invariant holds |
| `Walker.Sketch.OrganizeText` | processing/random_walker_writes.py:75-100 | the cursor loop leaves `letters` equal to the closed-form layout of the old list |
| `Walker.Sketch.AttemptJump` | processing/random_walker_writes.py:200-229 | succeeds exactly when the wrapped candidate is at distance >= safe_dist from every glyph; on success records it in tempX/tempY, on failure leaves them unchanged |
| `Walker.Sketch.JumpPhase` | processing/random_walker_writes.py:170-186 | one bounded retry loop finds a spot exactly when `FirstClear` does, and the same one; tempX/tempY then hold it, and are unchanged otherwise |
| `Walker.Sketch.FindSpot` | processing/random_walker_writes.py:158-186 | the centre case plus the two phases find a spot exactly when `Placement` does, and the same one; tempX/tempY hold it when a jump found it |
| `Walker.Sketch.KeyPressed` | processing/random_walker_writes.py:110-192 | Enter clears an organized canvas or organizes the list; Backspace drops exactly the last glyph (an empty list and the flag stay unchanged); a coded key changes nothing; a character key clears the flag and appends its glyph at `Placement`, or nothing; the class invariant is kept |

## Left out

- Drawing and windowing are not modelled because they are library calls with no logic of their own. This covers `settings`, `setup`, `draw`, `Letter.display`, the `background` calls and `run_sketch`.
- Font loading and its fallback to a system font are not modelled because they are file I/O.
- The `print` diagnostics are not modelled.
- The `Letter` fields `rotation`, `color` and `size` are not modelled because they are constant and used only for drawing.
- `random.choice` and `random.randint` are not modelled. Their results are inputs (`Draw`), and the model does not reason about probabilities.
- Every character key receives exactly 50 draws for each phase, even though the search stops at the first success.
- The model keeps glyphs as values in a sequence, not as shared `Letter` objects. The list is the only reference to them, so the layout pass moving each glyph in place and the model reassigning its entry describe the same state.
- `py5.dist` is a floating-point square root compared with 18. The model compares the squared integer distance with 18². For integer coordinates the two decide the same, because the rounded square root of an integer below 324 stays below 18 and `sqrt(324)` is exactly 18.
- The canvas centre is `width / 2` in Python, which is a float. The model uses integer division. The two agree for even canvas sizes such as 420×280; for odd sizes the source would produce half-pixel coordinates, which the model does not represent.
- `Walker.Sketch.FindSpot` is the search part of `key_pressed`, split into its own method to keep the proofs small. It is not a separate function in the source. The same holds for `Walker.Sketch.JumpPhase`, which is one of the two identical retry loops.
- `Walker.Sketch.AttemptJump` uses its `min_dist`/`max_dist` parameters only as a precondition on the drawn step length, because the source uses them only to draw it.
- Which key value stands for Enter or Backspace on a given platform is not modelled. Keys are an abstract datatype.
