# Neural cellular automaton — Dafny model

This project models `NeuralCellularAutomata`, a continuous cellular automaton.
Its state is a grid of real cell values. One step does two things:

1. It replaces every cell by the activation of a weighted sum over the cell's
   3×3 neighbourhood on a torus, using a fixed kernel. The results go into a
   scratch buffer.
2. It clamps the buffer to [0, 1] and copies it back into the grid.

The grid is shown by nearest-neighbour magnification by an integer scale
factor. One grey value is written into all three colour channels. Both
drivers, the recorder and the live window, advance the automaton two steps
per frame and paint once.

The model has six modules:

- `Grids`: shape helpers for sequences of rows.
- `GridMath`: integer index arithmetic.
  - The grid size is the viewport floor-divided by the scale factor.
  - The neighbour-index wrap appears twice: as written (`SourceWrap`) and as intended (`Wrap`).
- `Cells`: the value-level meaning of one step, covering the neighbourhood sum, activation and clamp.
  - `Step` is one step; `Steps` is several steps in a row.
  - The lemmas are about uniform grids and about the torus's shift symmetry.
- `Renderer`: the framebuffer that `paint` produces, and the integer facts about the pixel lookup.
- `Cadence`: the two-steps-then-paint rhythm of the drivers.
  - It covers the call log of a recording and the frames either driver emits.
- `Automaton`: the class `NeuralCellularAutomata`.
  - The pixel field, the grid, the scratch buffer and the kernel are `array2` fields.
  - `UpdateGrid` and `Paint` update them in place, with loops that are proved against the `Cells` and `Renderer` functions.
  - A ghost field `calls` logs the `update_grid`/`paint` calls, so the drivers' cadence can be stated.

The class invariant `Valid` records several facts:

- The scale factor is positive.
- The grid and the scratch buffer have the grid size.
- The pixel field has the viewport size.
- The grid, the buffer and the kernel are distinct arrays.
- The kernel holds the constructor's nine constants.

Every method keeps `Valid`. `UpdateGrid` is also barred from modifying `pixels` and `core`, so it leaves the framebuffer and the kernel untouched.

## Model

| member | source | states |
|---|---|---|
| GridMath.FloorDiv | neural_cellular_automata/NeuralCellularAutomata.py:13 | Python's `//`: the quotient is rounded toward negative infinity, for either sign of the divisor |
| GridMath.GridSize | neural_cellular_automata/NeuralCellularAutomata.py:13 | The grid size fails exactly when the scale factor is 0 (Python's division by zero). For S > 0 each dimension `d` satisfies `d*S <= vp < d*S + S`, the floor of vp/S, and is non-negative for a non-negative viewport. For S < 0 it satisfies `d*S + S < vp <= d*S`, which is again the floor |
| GridMath.GridCoversViewport | neural_cellular_automata/NeuralCellularAutomata.py:13 | The grid magnified by S covers the viewport exactly iff S divides both viewport dimensions |
| GridMath.SourceWrap | neural_cellular_automata/NeuralCellularAutomata.py:72-80 | The wrap exactly as written: add n below 0, subtract n only above n. The result for an index from -1 to n lies in [0, n], one value wider than the grid |
| GridMath.Wrap | neural_cellular_automata/NeuralCellularAutomata.py:69-80 | The corrected wrap (upper test `>=`) maps every neighbour index from -1 to n into [0, n) |
| GridMath.SourceWrapRange | neural_cellular_automata/NeuralCellularAutomata.py:69-80 | The wrap as written: -1 maps to n-1 and [0, n) is unchanged. The index n is left as n, so the result lies in [0, n) exactly when the index is below n; below n it agrees with `Wrap` |
| GridMath.SourceStepReadsPastLastRow | neural_cellular_automata/NeuralCellularAutomata.py:65-80 | For every grid height w >= 1, cell i = w-1 with kernel row l = 2 reads row w, one past the grid |
| GridMath.WrapIsModulo | neural_cellular_automata/NeuralCellularAutomata.py:69-80 | On the indices a step produces, the corrected wrap equals `r % n`, the true torus modulo |
| Cells.Kernel | neural_cellular_automata/NeuralCellularAutomata.py:19-22 | The kernel is a 3×3 table |
| Cells.Clamp | neural_cellular_automata/NeuralCellularAutomata.py:86 | `clamp(x, 0, 1)` lies in [0, 1] and is the point of [0, 1] nearest to x |
| Cells.Conv | neural_cellular_automata/NeuralCellularAutomata.py:66-82 | The sum the loop accumulates: the nine products of the wrapped neighbour `(i+l-1, j+n-1)` and kernel entry `(l, n)`, added row by row and column by column (`RowSum`, `BlockSum`). It is a definition with no contract; `CellSum` and `ConvUniform` state what it is |
| Cells.Activated | neural_cellular_automata/NeuralCellularAutomata.py:65-83 | Phase 1 of the step, as a function of the old grid alone; the buffer has the grid's shape |
| Cells.ClampGrid | neural_cellular_automata/NeuralCellularAutomata.py:85-86 | Phase 2 of the step: a cell-wise clamp that keeps the shape |
| Cells.Step | neural_cellular_automata/NeuralCellularAutomata.py:61-86 | One step keeps the grid's shape and leaves every cell in [0, 1] |
| Cells.Steps | neural_cellular_automata/NeuralCellularAutomata.py:31-33 | Repeated steps keep the shape; after at least one step every cell lies in [0, 1] |
| Cells.CornerSeesOppositeCorner | neural_cellular_automata/NeuralCellularAutomata.py:69-82 | The first product of cell (0, 0) weighs the opposite corner (N-1, M-1), not an out-of-grid cell |
| Cells.ConvUniform | neural_cellular_automata/NeuralCellularAutomata.py:65-82 | On a uniform grid of value v every neighbourhood sum is v times the kernel's weight total, which is -1.54·v for the constructor's kernel |
| Cells.StepUniform | neural_cellular_automata/NeuralCellularAutomata.py:61-86 | A uniform grid steps to a uniform grid, with value `clamp(act(v · weight total))`, whatever its size |
| Cells.StepCommutesWithRotateRows | neural_cellular_automata/NeuralCellularAutomata.py:65-86 | Stepping a grid rotated by one row equals rotating the stepped grid: the corrected step has no edge effects along rows |
| Cells.StepCommutesWithRotateCols | neural_cellular_automata/NeuralCellularAutomata.py:65-86 | The same for rotation by one column |
| Renderer.LookupInBounds | neural_cellular_automata/NeuralCellularAutomata.py:91 | The lookup `x // S` is below `size` iff `x < size * S` |
| Renderer.AllLookupsInBoundsIffDivides | neural_cellular_automata/NeuralCellularAutomata.py:91 | With the truncated grid size `vp // S`, every pixel of a viewport dimension looks up a cell inside the grid iff S divides that dimension |
| Renderer.BlockIndex | neural_cellular_automata/NeuralCellularAutomata.py:91 | Pixel `b*S + k` with `0 <= k < S` looks up cell b |
| Renderer.Sample | neural_cellular_automata/NeuralCellularAutomata.py:91 | The lookup `grid[x // S][y // S]`. It is a definition with no contract; the in-bounds obligation for its index is discharged by `LookupInBounds` |
| Renderer.Render | neural_cellular_automata/NeuralCellularAutomata.py:88-94 | The framebuffer has the viewport's shape, and every pixel carries equal r, g and b |
| Renderer.RenderBlockConstant | neural_cellular_automata/NeuralCellularAutomata.py:89-94 | Every pixel of the S×S block of cell (row, col) is the grey of that cell |
| Cadence.RecordCalls | neural_cellular_automata/NeuralCellularAutomata.py:31-34 | The calls of n frames in order: n repetitions of update_grid, update_grid, paint. It is a definition with no contract; `RecordCallsCount` and `RecordCallsPeriodic` state its counts and period |
| Cadence.RecordCallsCount | neural_cellular_automata/NeuralCellularAutomata.py:31-34 | Recording n frames makes 3n calls: 2n `update_grid` calls and n `paint` calls |
| Cadence.RecordCallsPeriodic | neural_cellular_automata/NeuralCellularAutomata.py:31-34 | Call p of a recording is call p mod 3 of a frame: step, step, paint, repeated |
| Cadence.FirstExit | neural_cellular_automata/NeuralCellularAutomata.py:47 | The number of frames a live session shows is the index of the first poll that reports an exit, or the number of polls if none does; no earlier poll reports one |
| Cadence.FirstExitIff | neural_cellular_automata/NeuralCellularAutomata.py:47 | Both directions: k is the frame count of a live session iff the first k polls report no exit and poll k, if there is one, reports an exit |
| Cadence.Frames | neural_cellular_automata/NeuralCellularAutomata.py:31-36 | n frames yield exactly n framebuffers |
| Cadence.FrameAfterTwoStepsEach | neural_cellular_automata/NeuralCellularAutomata.py:31-36 | Frame f (counting from 0) shows the grid after exactly 2(f+1) steps |
| Automaton.SetRow | neural_cellular_automata/NeuralCellularAutomata.py:20-22 | `core[l].xyz = row`: row l of the 3×3 kernel becomes the given three values, and the other two rows keep their values |
| Automaton.NeuralCellularAutomata.constructor | neural_cellular_automata/NeuralCellularAutomata.py:7-24 | See note 1 below the table |
| Automaton.NeuralCellularAutomata.CellSum | neural_cellular_automata/NeuralCellularAutomata.py:65-82 | The 3×3 loop accumulates exactly the wrapped weighted neighbourhood sum `Conv` of the current grid |
| Automaton.NeuralCellularAutomata.ComputeBuffer | neural_cellular_automata/NeuralCellularAutomata.py:65-83 | Phase 1 modifies only the buffer. Afterwards the buffer holds the activated sums of the grid as it was (read old, write new) |
| Automaton.NeuralCellularAutomata.CommitBuffer | neural_cellular_automata/NeuralCellularAutomata.py:85-86 | Phase 2 modifies only the grid, setting each cell to its buffer value clamped to [0, 1] |
| Automaton.NeuralCellularAutomata.UpdateGrid | neural_cellular_automata/NeuralCellularAutomata.py:61-86 | See note 2 below the table |
| Automaton.NeuralCellularAutomata.Paint | neural_cellular_automata/NeuralCellularAutomata.py:88-94 | The pixel field becomes `Render` of the grid: pixel (x, y) is the grey of `grid[x // S, y // S]`. The grid is not modified and one `paint` call is logged |
| Automaton.NeuralCellularAutomata.PaintTwice | neural_cellular_automata/NeuralCellularAutomata.py:88-94 | Two paints with no step in between leave identical framebuffers, both `Render` of the unchanged grid. `Valid` is kept and two paint calls are logged |
| Automaton.NeuralCellularAutomata.AdvanceFrame | neural_cellular_automata/NeuralCellularAutomata.py:31-34 | One frame applies `Step` twice to the grid, leaves the framebuffer as `Render` of the new grid, and logs step, step, paint |
| Automaton.NeuralCellularAutomata.NextFrame | neural_cellular_automata/NeuralCellularAutomata.py:31-36 | The body of a driver loop. It takes the state after f frames to the state after f+1 frames: grid, framebuffers so far, and call log |
| Automaton.NeuralCellularAutomata.Record | neural_cellular_automata/NeuralCellularAutomata.py:26-43 | See note 3 below the table |
| Automaton.NeuralCellularAutomata.Draw | neural_cellular_automata/NeuralCellularAutomata.py:45-54 | See note 4 below the table |

Notes on the longer contracts:

1. `constructor`:
   - The grid size is `GridSize` of the viewport.
   - The grid holds the initial draws and the pixel field is black.
   - All arrays are fresh and distinct.
   - The kernel holds `[[0.68,-0.9,0.68],[-0.9,-0.66,-0.9],[0.68,-0.9,0.68]]`, as part of `Valid`.
   - The call log is empty.
2. `UpdateGrid`:
   - The buffer ends up as `Activated` of the old grid.
   - The grid ends up as `ClampGrid` of the buffer, which is `Step` of the old grid.
   - The pixel field and the kernel are untouched.
   - One `update_grid` call is logged.
3. `Record`:
   - The emitted video equals `Frames` of the initial grid.
   - The grid has taken 2·frames steps.
   - The pixel field is the last framebuffer, or unchanged when no frame is recorded.
   - The call log grows by `RecordCalls(frames)`.
4. `Draw`:
   - The shown frames equal `Frames` of the initial grid for `FirstExit(polls)` frames.
   - The grid has taken twice that many steps.
   - The pixel field is the last shown frame, or unchanged when the first poll reports an exit.
   - The call log grows by `RecordCalls` of that count.

## Left out

- Taichi runtime setup (`ti.init`) and the mechanics of field allocation are not modelled. Fields are plain Dafny arrays.
- The window, event polling and `set_image`/`show` of `draw` are not modelled. Each poll's exit answer is the sequence parameter `exitPolls`.
  - A session that never reports an exit is cut off where the polls run out.
  - The shown frames are returned as a sequence.
- `VideoManager` frame writing, GIF export and the progress and completion messages of `record` are not modelled. The recorded frames are returned as a sequence.
- The frame rate parameter of `record` is not modelled, because it only configures the video writer.
- `fill_random` draws from an RNG. The initial cell values are the constructor parameter `draw`, one value per cell, with no range assumed.
- The body of `activation` is not modelled, because it is `pow` with a real exponent. The activation is an arbitrary `real -> real` function given to the constructor, and nothing is assumed or proved about its evenness or bounds.
- f32 rounding of the sums, the products and the kernel constants is not modelled. Values are exact reals, and NaN and infinities do not arise.
- The parallel execution of Taichi's outer loops is not modelled. The loops are sequential, which is sound because phase 1 reads only the grid and kernel and writes only the buffer, and phase 2 reads only the buffer.
- Automaton.NeuralCellularAutomata.constructor requires a scale factor of at least 1.
  - Python fails on zero with a division by zero; `GridSize` models that error path.
  - Negative sizes are refused by the field allocation, which is not part of this model.
- Automaton.NeuralCellularAutomata.Paint requires that the grid magnified by S covers the viewport exactly (S divides both viewport dimensions). `Record`, `Draw`, `AdvanceFrame` and `NextFrame` inherit this requirement.
  - When S does not divide a dimension, the source reads cells past the grid's edge (`Renderer.AllLookupsInBoundsIffDivides`).
  - What such a read returns depends on Taichi's memory layout, which this model does not describe.
- Automaton.NeuralCellularAutomata.CellSum and the rest of the class use the corrected wrap, not the one written at lines 74 and 79. The wrap as written reads one row and one column past the grid (see Findings). What that read returns is not modelled, for the same reason as the previous item.

## Findings

| source | as written | input that shows it | evidently intended | confidence | as-written member | corrected member |
|---|---|---|---|---|---|---|
| neural_cellular_automata/NeuralCellularAutomata.py:74-80 | The upper wrap tests `r > w` (and `c > h`), so the neighbour index `r = w` is left as `w` | Any grid, cell `i = w - 1` with kernel row `l = 2`: `r = w`, one row past the grid (likewise `j = h - 1`, `n = 2` for columns) | The test `r >= w`, which makes the wrap the torus modulo | not executed | GridMath.SourceStepReadsPastLastRow | GridMath.WrapIsModulo |

`GridMath.SourceWrap` is the wrap exactly as lines 72-80 write it. `GridMath.SourceWrapRange` proves that it maps a neighbour index into the grid exactly when the index is below the grid size. The corrected `GridMath.Wrap` is what `Cells.Product` and `NeuralCellularAutomata.CellSum` use. With it the step is the same everywhere on the torus (`Cells.StepCommutesWithRotateRows`, `Cells.StepCommutesWithRotateCols`, `Cells.StepUniform`).

The renderer's block law is stated for whole blocks: pixel `b*S + k` with `0 <= k < S` samples cell `b` (`Renderer.BlockIndex`, `Renderer.RenderBlockConstant`). `x // S == (x + k) // S` does not hold for an arbitrary pixel `x`, since `x = S - 1` and `k = 1` already separate them. The floor division in `paint` therefore yields S×S blocks aligned at multiples of S, which is what these lemmas state.
