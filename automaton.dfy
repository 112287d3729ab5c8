/**
 * The automaton object: the pixel field, the grid and its scratch buffer as
 * 2-D arrays updated in place by `UpdateGrid` and `Paint`, and the two
 * drivers that call them twice and once per frame.
 */
module Automaton {
  import opened Grids
  import opened GridMath
  import opened Cells
  import opened Renderer
  import opened Cadence

  /** The contents of a 2-D array, row by row. */
  function Snapshot<T>(a: array2<T>): (s: seq<seq<T>>)
    reads a
    ensures |s| == a.Length0 && Rect(s) && (a.Length0 > 0 ==> Cols(s) == a.Length1)
    ensures forall i, j :: 0 <= i < a.Length0 && 0 <= j < a.Length1 ==> s[i][j] == a[i, j]
  {
    seq(a.Length0, i requires 0 <= i < a.Length0 reads a =>
      seq(a.Length1, j requires 0 <= j < a.Length1 reads a => a[i, j]))
  }

  /** `k[l].xyz = row`: row `l` of a 3×3 table becomes `row`, the other rows are kept. */
  method SetRow(k: array2<real>, l: nat, row: seq<real>)
    requires k.Length0 == 3 && k.Length1 == 3 && l < 3 && |row| == 3
    modifies k
    ensures forall n :: 0 <= n < 3 ==> k[l, n] == row[n]
    ensures forall m, n :: 0 <= m < 3 && 0 <= n < 3 && m != l ==> k[m, n] == old(k[m, n])
  {
    k[l, 0], k[l, 1], k[l, 2] := row[0], row[1], row[2];
  }

  class NeuralCellularAutomata {
    const vpW: nat
    const vpH: nat
    const scale: nat
    const gridW: nat
    const gridH: nat
    /** One colour per pixel of the viewport. */
    const pixels: array2<Rgb>
    /** The current cell states. */
    const grid: array2<real>
    /** The scratch buffer phase 1 of a step writes. */
    const gridBuffer: array2<real>
    /** The 3×3 kernel, row `l`, column `n`. */
    const core: array2<real>
    /** The activation applied to each neighbourhood sum. */
    const activation: real -> real
    /** The update_grid and paint calls made so far, in order. */
    ghost var calls: seq<Call>

    ghost predicate Valid()
      reads core
    {
      scale >= 1 &&
      pixels.Length0 == vpW && pixels.Length1 == vpH &&
      grid.Length0 == gridW && grid.Length1 == gridH &&
      gridBuffer.Length0 == gridW && gridBuffer.Length1 == gridH &&
      grid != gridBuffer && core != grid && core != gridBuffer &&
      core.Length0 == 3 && core.Length1 == 3 &&
      forall l, n :: 0 <= l < 3 && 0 <= n < 3 ==> core[l, n] == Kernel()[l][n]
    }

    /** The grid, magnified by the scale factor, covers the viewport exactly. */
    predicate CoversViewport() {
      vpW == gridW * scale && vpH == gridH * scale
    }

    /**
     * Sizes the grid from the viewport, allocates the zeroed fields, sets the
     * kernel, and fills the grid with the random draws `draw(i, j)`.
     */
    constructor (vp: (nat, nat), scaleFactor: nat, activation: real -> real, draw: (int, int) -> real)
      requires scaleFactor >= 1
      ensures Valid()
      ensures vpW == vp.0 && vpH == vp.1 && scale == scaleFactor && this.activation == activation
      ensures GridSize(vp.0, vp.1, scaleFactor) == Ok((gridW, gridH))
      ensures fresh(pixels) && fresh(grid) && fresh(gridBuffer) && fresh(core)
      ensures forall i, j :: 0 <= i < gridW && 0 <= j < gridH ==> grid[i, j] == draw(i, j)
      ensures forall x, y :: 0 <= x < vpW && 0 <= y < vpH ==> pixels[x, y] == Gray(0.0)
      ensures calls == []
    {
      vpW, vpH := vp.0, vp.1;
      scale := scaleFactor;
      gridW, gridH := vp.0 / scaleFactor, vp.1 / scaleFactor;
      pixels := new Rgb[vp.0, vp.1]((x, y) => Gray(0.0));
      grid := new real[vp.0 / scaleFactor, vp.1 / scaleFactor]((i, j) => draw(i, j));
      gridBuffer := new real[vp.0 / scaleFactor, vp.1 / scaleFactor]((i, j) => 0.0);
      var k := new real[3, 3]((l, n) => 0.0);
      SetRow(k, 0, [0.68, -0.9, 0.68]);
      SetRow(k, 1, [-0.9, -0.66, -0.9]);
      SetRow(k, 2, [0.68, -0.9, 0.68]);
      core := k;
      this.activation := activation;
      calls := [];
    }

    /**
     * The weighted sum of the 3×3 torus neighbourhood of cell `(i, j)`,
     * accumulated in the source's loop order.
     */
    method CellSum(i: nat, j: nat) returns (res: real)
      requires Valid() && i < gridW && j < gridH
      ensures res == Conv(Snapshot(grid), Kernel(), i, j)
    {
      ghost var g := Snapshot(grid);
      res := 0.0;
      for l := 0 to 3
        invariant res == BlockSum(g, Kernel(), i, j, l)
      {
        for n := 0 to 3
          invariant res == BlockSum(g, Kernel(), i, j, l) + RowSum(g, Kernel(), i, j, l, n)
        {
          var r := i + l - 1;
          var c := j + n - 1;
          if r < 0 {
            r := r + gridW;
          } else if r >= gridW {
            r := r - gridW;
          }
          if c < 0 {
            c := c + gridH;
          } else if c >= gridH {
            c := c - gridH;
          }
          assert r == Wrap(i + l - 1, |g|) && c == Wrap(j + n - 1, Cols(g));
          assert Weigh(grid[r, c], core[l, n]) == Product(g, Kernel(), i, j, l, n);
          res := res + Weigh(grid[r, c], core[l, n]);
        }
      }
    }

    /**
     * Phase 1 of a step: the activated neighbourhood sum of every cell of
     * the grid goes to the scratch buffer; the grid itself is only read.
     */
    method ComputeBuffer()
      requires Valid()
      modifies gridBuffer
      ensures Valid()
      ensures Snapshot(gridBuffer) == Activated(Snapshot(grid), Kernel(), activation)
    {
      ghost var g0 := Snapshot(grid);
      ghost var b := Activated(g0, Kernel(), activation);
      var i := 0;
      while i < gridW
        invariant 0 <= i <= gridW
        invariant Snapshot(grid) == g0
        invariant forall a, c :: 0 <= a < i && 0 <= c < gridH ==> gridBuffer[a, c] == b[a][c]
      {
        var j := 0;
        while j < gridH
          invariant 0 <= j <= gridH
          invariant Snapshot(grid) == g0
          invariant forall a, c :: 0 <= a < i && 0 <= c < gridH ==> gridBuffer[a, c] == b[a][c]
          invariant forall c :: 0 <= c < j ==> gridBuffer[i, c] == b[i][c]
        {
          var res := CellSum(i, j);
          gridBuffer[i, j] := activation(res);
          j := j + 1;
        }
        i := i + 1;
      }
      SameCells(Snapshot(gridBuffer), b);
    }

    /** Phase 2 of a step: every cell of the grid becomes its buffer value clamped to [0, 1]. */
    method CommitBuffer()
      requires Valid()
      modifies grid
      ensures Valid()
      ensures Snapshot(grid) == ClampGrid(Snapshot(gridBuffer))
    {
      var i := 0;
      while i < gridW
        invariant 0 <= i <= gridW
        invariant forall a, c :: 0 <= a < i && 0 <= c < gridH ==> grid[a, c] == Clamp(gridBuffer[a, c])
      {
        var j := 0;
        while j < gridH
          invariant 0 <= j <= gridH
          invariant forall a, c :: 0 <= a < i && 0 <= c < gridH ==> grid[a, c] == Clamp(gridBuffer[a, c])
          invariant forall c :: 0 <= c < j ==> grid[i, c] == Clamp(gridBuffer[i, c])
        {
          grid[i, j] := Clamp(gridBuffer[i, j]);
          j := j + 1;
        }
        i := i + 1;
      }
      SameCells(Snapshot(grid), ClampGrid(Snapshot(gridBuffer)));
    }

    /**
     * One step: phase 1 reads only the old grid and writes only the scratch
     * buffer, phase 2 copies the buffer back clamped.
     */
    method UpdateGrid()
      requires Valid()
      modifies this`calls, grid, gridBuffer
      ensures Valid()
      ensures Snapshot(gridBuffer) == Activated(old(Snapshot(grid)), Kernel(), activation)
      ensures Snapshot(grid) == ClampGrid(Snapshot(gridBuffer))
      ensures Snapshot(grid) == Step(old(Snapshot(grid)), Kernel(), activation)
      ensures calls == old(calls) + [UpdateGridCall]
    {
      ComputeBuffer();
      CommitBuffer();
      calls := calls + [UpdateGridCall];
    }

    /**
     * Sets every pixel to the grey of the cell it magnifies, writing the r,
     * g and b channels one after another.
     */
    method Paint()
      requires Valid() && CoversViewport()
      modifies this`calls, pixels
      ensures Valid()
      ensures Snapshot(pixels) == Render(Snapshot(grid), vpW, vpH, scale)
      ensures calls == old(calls) + [PaintCall]
    {
      ghost var g := Snapshot(grid);
      var x := 0;
      while x < vpW
        modifies pixels
        invariant 0 <= x <= vpW
        invariant forall a, c :: 0 <= a < x && 0 <= c < vpH ==> pixels[a, c] == Gray(Sample(g, scale, a, c))
      {
        var y := 0;
        while y < vpH
          modifies pixels
          invariant 0 <= y <= vpH
          invariant forall a, c :: 0 <= a < x && 0 <= c < vpH ==> pixels[a, c] == Gray(Sample(g, scale, a, c))
          invariant forall c :: 0 <= c < y ==> pixels[x, c] == Gray(Sample(g, scale, x, c))
        {
          LookupInBounds(x, gridW, scale);
          LookupInBounds(y, gridH, scale);
          var val := grid[x / scale, y / scale];
          pixels[x, y] := pixels[x, y].(r := val);
          pixels[x, y] := pixels[x, y].(g := val);
          pixels[x, y] := pixels[x, y].(b := val);
          y := y + 1;
        }
        x := x + 1;
      }
      SameCells(Snapshot(pixels), Render(g, vpW, vpH, scale));
      calls := calls + [PaintCall];
    }

    /** Two paints with no step between them leave the same framebuffer. */
    method PaintTwice() returns (first: Image, second: Image)
      requires Valid() && CoversViewport()
      modifies this`calls, pixels
      ensures Valid()
      ensures first == second == Snapshot(pixels)
      ensures first == Render(Snapshot(grid), vpW, vpH, scale)
      ensures calls == old(calls) + [PaintCall, PaintCall]
    {
      Paint();
      first := Snapshot(pixels);
      Paint();
      second := Snapshot(pixels);
    }

    /** One frame of either driver: two steps, then one paint. */
    method AdvanceFrame()
      requires Valid() && CoversViewport()
      modifies this`calls, grid, gridBuffer, pixels
      ensures Valid()
      ensures Snapshot(grid) == Step(Step(old(Snapshot(grid)), Kernel(), activation), Kernel(), activation)
      ensures Snapshot(pixels) == Render(Snapshot(grid), vpW, vpH, scale)
      ensures calls == old(calls) + FrameCalls()
    {
      UpdateGrid();
      UpdateGrid();
      Paint();
    }

    /**
     * The body of both driver loops: frame `f` (counting from 0) of a run
     * that started from grid `g0` with call log `c0` is advanced and its
     * framebuffer appended to the frames so far.
     */
    method NextFrame(ghost g0: Grid, ghost c0: seq<Call>, f: nat, sofar: seq<Image>) returns (frames: seq<Image>)
      requires Valid() && CoversViewport()
      requires Renderable(g0, vpW, vpH, scale)
      requires Snapshot(grid) == Steps(g0, Kernel(), activation, 2 * f)
      requires sofar == Frames(g0, Kernel(), activation, vpW, vpH, scale, f)
      requires calls == c0 + RecordCalls(f)
      modifies this`calls, grid, gridBuffer, pixels
      ensures Valid()
      ensures Snapshot(grid) == Steps(g0, Kernel(), activation, 2 * (f + 1))
      ensures frames == Frames(g0, Kernel(), activation, vpW, vpH, scale, f + 1)
      ensures Snapshot(pixels) == frames[f]
      ensures calls == c0 + RecordCalls(f + 1)
    {
      FrameStep(g0, Kernel(), activation, vpW, vpH, scale, f);
      AdvanceFrame();
      assert Snapshot(grid) == Steps(g0, Kernel(), activation, 2 * (f + 1));
      assert calls == c0 + RecordCalls(f + 1);
      frames := sofar + [Snapshot(pixels)];
    }

    /**
     * Records `frames` frames: per frame two steps and one paint, the
     * framebuffer then being handed to the video writer (here: appended to
     * `video`).
     */
    method Record(frames: nat) returns (video: seq<Image>)
      requires Valid() && CoversViewport()
      modifies this`calls, grid, gridBuffer, pixels
      ensures Valid()
      ensures video == Frames(old(Snapshot(grid)), Kernel(), activation, vpW, vpH, scale, frames)
      ensures Snapshot(grid) == Steps(old(Snapshot(grid)), Kernel(), activation, 2 * frames)
      ensures frames > 0 ==> Snapshot(pixels) == video[frames - 1]
      ensures frames == 0 ==> Snapshot(pixels) == old(Snapshot(pixels))
      ensures calls == old(calls) + RecordCalls(frames)
    {
      ghost var g0 := Snapshot(grid);
      ghost var p0 := Snapshot(pixels);
      ghost var c0 := calls;
      video := [];
      for f: nat := 0 to frames
        invariant Valid()
        invariant Renderable(g0, vpW, vpH, scale)
        invariant Snapshot(grid) == Steps(g0, Kernel(), activation, 2 * f)
        invariant video == Frames(g0, Kernel(), activation, vpW, vpH, scale, f)
        invariant f > 0 ==> Snapshot(pixels) == video[f - 1]
        invariant f == 0 ==> Snapshot(pixels) == p0
        invariant calls == c0 + RecordCalls(f)
      {
        video := NextFrame(g0, c0, f, video);
      }
    }

    /**
     * The live loop: before each frame the window is polled for an exit
     * event, `exitPolls[k]` being the answer of the `k`-th poll; the loop
     * also ends when the polls run out.
     */
    method Draw(exitPolls: seq<bool>) returns (shown: seq<Image>)
      requires Valid() && CoversViewport()
      modifies this`calls, grid, gridBuffer, pixels
      ensures Valid()
      ensures shown == Frames(old(Snapshot(grid)), Kernel(), activation, vpW, vpH, scale, FirstExit(exitPolls))
      ensures Snapshot(grid) == Steps(old(Snapshot(grid)), Kernel(), activation, 2 * FirstExit(exitPolls))
      ensures FirstExit(exitPolls) > 0 ==> Snapshot(pixels) == shown[FirstExit(exitPolls) - 1]
      ensures FirstExit(exitPolls) == 0 ==> Snapshot(pixels) == old(Snapshot(pixels))
      ensures calls == old(calls) + RecordCalls(FirstExit(exitPolls))
    {
      ghost var g0 := Snapshot(grid);
      ghost var p0 := Snapshot(pixels);
      ghost var c0 := calls;
      shown := [];
      assert Steps(g0, Kernel(), activation, 0) == g0;
      var k: nat := 0;
      while k < |exitPolls| && !exitPolls[k]
        invariant k <= |exitPolls|
        invariant forall i :: 0 <= i < k ==> !exitPolls[i]
        invariant Valid()
        invariant Renderable(g0, vpW, vpH, scale)
        invariant Snapshot(grid) == Steps(g0, Kernel(), activation, 2 * k)
        invariant shown == Frames(g0, Kernel(), activation, vpW, vpH, scale, k)
        invariant k > 0 ==> Snapshot(pixels) == shown[k - 1]
        invariant k == 0 ==> Snapshot(pixels) == p0
        invariant calls == c0 + RecordCalls(k)
      {
        assert forall i :: 0 <= i < k + 1 ==> !exitPolls[i];
        shown := NextFrame(g0, c0, k, shown);
        k := k + 1;
      }
      FirstExitIff(exitPolls, k);
      assert k == FirstExit(exitPolls);
    }
  }
}
