/**
 * The value-level meaning of one automaton step: the 3×3 weighted sum over
 * the toroidal neighbourhood, the activation, and the clamp to [0, 1].
 */
module Cells {
  import opened Grids
  import opened GridMath

  /** Cell states, row `i` then column `j`. */
  type Grid = seq<seq<real>>

  predicate IsKernel(k: Grid) {
    |k| == 3 && forall l :: 0 <= l < 3 ==> |k[l]| == 3
  }

  /** The weights the automaton is constructed with. */
  function Kernel(): (k: Grid)
    ensures IsKernel(k)
  {
    [[0.68, -0.9, 0.68],
     [-0.9, -0.66, -0.9],
     [0.68, -0.9, 0.68]]
  }

  /** `(i, j)` is a cell of the rectangular grid `g`. */
  predicate InGrid(g: Grid, i: int, j: int) {
    Rect(g) && 0 <= i < |g| && 0 <= j < Cols(g)
  }

  /** A cell value weighted by a kernel entry. */
  function Weigh(v: real, w: real): real {
    v * w
  }

  /**
   * Product `(l, n)` for cell `(i, j)`: the neighbour `(i + l - 1, j + n - 1)`,
   * wrapped onto the torus, weighted by kernel entry `(l, n)`.
   */
  function Product(g: Grid, k: Grid, i: int, j: int, l: int, n: int): real
    requires InGrid(g, i, j) && IsKernel(k) && 0 <= l < 3 && 0 <= n < 3
  {
    Weigh(g[Wrap(i + l - 1, |g|)][Wrap(j + n - 1, Cols(g))], k[l][n])
  }

  /** The products of kernel row `l` for columns below `n`, in the inner loop's order. */
  function RowSum(g: Grid, k: Grid, i: int, j: int, l: int, n: nat): real
    requires InGrid(g, i, j) && IsKernel(k) && 0 <= l < 3 && n <= 3
  {
    if n == 0 then 0.0 else RowSum(g, k, i, j, l, n - 1) + Product(g, k, i, j, l, n - 1)
  }

  /** The products of kernel rows below `l`, in the outer loop's order. */
  function BlockSum(g: Grid, k: Grid, i: int, j: int, l: nat): real
    requires InGrid(g, i, j) && IsKernel(k) && l <= 3
  {
    if l == 0 then 0.0 else BlockSum(g, k, i, j, l - 1) + RowSum(g, k, i, j, l - 1, 3)
  }

  /** The weighted neighbourhood sum of cell `(i, j)`. */
  function Conv(g: Grid, k: Grid, i: int, j: int): real
    requires InGrid(g, i, j) && IsKernel(k)
  {
    BlockSum(g, k, i, j, 3)
  }

  function Dist(a: real, b: real): real {
    if a < b then b - a else a - b
  }

  /** `clamp(x, 0, 1)`: the point of [0, 1] nearest to `x`. */
  function Clamp(x: real): (r: real)
    ensures 0.0 <= r <= 1.0
    ensures forall y :: 0.0 <= y <= 1.0 ==> Dist(r, x) <= Dist(y, x)
  {
    if x < 0.0 then 0.0 else if x > 1.0 then 1.0 else x
  }

  /** Phase 1: every cell's activated neighbourhood sum, read from `g` alone. */
  function Activated(g: Grid, k: Grid, act: real -> real): (b: Grid)
    requires Rect(g) && IsKernel(k)
    ensures |b| == |g| && Rect(b) && Cols(b) == Cols(g)
  {
    seq(|g|, i requires 0 <= i < |g| =>
      seq(Cols(g), j requires 0 <= j < Cols(g) => act(Conv(g, k, i, j))))
  }

  /** Phase 2: every cell clamped to [0, 1]. */
  function ClampGrid(b: Grid): (c: Grid)
    requires Rect(b)
    ensures |c| == |b| && Rect(c) && Cols(c) == Cols(b)
  {
    seq(|b|, i requires 0 <= i < |b| =>
      seq(Cols(b), j requires 0 <= j < Cols(b) => Clamp(b[i][j])))
  }

  /** One step of the automaton; the new grid has the old shape and lies in [0, 1]. */
  function Step(g: Grid, k: Grid, act: real -> real): (s: Grid)
    requires Rect(g) && IsKernel(k)
    ensures |s| == |g| && Rect(s) && Cols(s) == Cols(g)
    ensures forall i, j :: 0 <= i < |s| && 0 <= j < Cols(s) ==> 0.0 <= s[i][j] <= 1.0
  {
    ClampGrid(Activated(g, k, act))
  }

  /** `n` steps in a row. */
  function Steps(g: Grid, k: Grid, act: real -> real, n: nat): (s: Grid)
    requires Rect(g) && IsKernel(k)
    ensures |s| == |g| && Rect(s) && Cols(s) == Cols(g)
    ensures n > 0 ==> forall i, j :: 0 <= i < |s| && 0 <= j < Cols(s) ==> 0.0 <= s[i][j] <= 1.0
  {
    if n == 0 then g else Step(Steps(g, k, act, n - 1), k, act)
  }

  /** On the torus, the first neighbour of cell (0, 0) is the opposite corner. */
  lemma CornerSeesOppositeCorner(g: Grid, k: Grid)
    requires InGrid(g, 0, 0) && IsKernel(k)
    ensures Product(g, k, 0, 0, 0, 0) == Weigh(g[|g| - 1][Cols(g) - 1], k[0][0])
  {
  }

  // ---------------------------------------------------------------------
  // A uniform grid stays uniform.

  predicate Uniform(g: Grid, v: real) {
    Rect(g) && forall i, j :: 0 <= i < |g| && 0 <= j < Cols(g) ==> g[i][j] == v
  }

  /** The kernel weights of row `l` below column `n`. */
  function RowWeight(k: Grid, l: int, n: nat): real
    requires IsKernel(k) && 0 <= l < 3 && n <= 3
  {
    if n == 0 then 0.0 else RowWeight(k, l, n - 1) + k[l][n - 1]
  }

  /** The kernel weights of the rows below `l`. */
  function WeightSum(k: Grid, l: nat): real
    requires IsKernel(k) && l <= 3
  {
    if l == 0 then 0.0 else WeightSum(k, l - 1) + RowWeight(k, l - 1, 3)
  }

  lemma {:induction false} RowSumUniform(g: Grid, k: Grid, v: real, i: int, j: int, l: int, n: nat)
    requires Uniform(g, v) && InGrid(g, i, j) && IsKernel(k) && 0 <= l < 3 && n <= 3
    ensures RowSum(g, k, i, j, l, n) == v * RowWeight(k, l, n)
  {
    if n > 0 {
      RowSumUniform(g, k, v, i, j, l, n - 1);
    }
  }

  lemma {:induction false} BlockSumUniform(g: Grid, k: Grid, v: real, i: int, j: int, l: nat)
    requires Uniform(g, v) && InGrid(g, i, j) && IsKernel(k) && l <= 3
    ensures BlockSum(g, k, i, j, l) == v * WeightSum(k, l)
  {
    if l > 0 {
      BlockSumUniform(g, k, v, i, j, l - 1);
      RowSumUniform(g, k, v, i, j, l - 1, 3);
    }
  }

  /** On a uniform grid every cell's neighbourhood sum is the value times the weight total. */
  lemma ConvUniform(g: Grid, k: Grid, v: real, i: int, j: int)
    requires Uniform(g, v) && InGrid(g, i, j) && IsKernel(k)
    ensures Conv(g, k, i, j) == v * WeightSum(k, 3)
    ensures k == Kernel() ==> Conv(g, k, i, j) == -1.54 * v
  {
    BlockSumUniform(g, k, v, i, j, 3);
    assert WeightSum(Kernel(), 3) == -1.54;
  }

  /** A uniform grid steps to a uniform grid: the step has no position-dependent edge effects. */
  lemma StepUniform(g: Grid, k: Grid, act: real -> real, v: real)
    requires Uniform(g, v) && IsKernel(k)
    ensures Uniform(Step(g, k, act), Clamp(act(v * WeightSum(k, 3))))
  {
    var s := Step(g, k, act);
    forall i, j | 0 <= i < |s| && 0 <= j < Cols(s)
      ensures s[i][j] == Clamp(act(v * WeightSum(k, 3)))
    {
      ConvUniform(g, k, v, i, j);
    }
  }

  // ---------------------------------------------------------------------
  // The step commutes with rotating the torus by one row or one column.

  /** The next index on a cycle of length `n`. */
  function Next(i: int, n: int): int {
    if i + 1 < n then i + 1 else 0
  }

  /** Row `i` of the result is row `i + 1` of `g`, the last row taking the first. */
  function RotateRows(g: Grid): (h: Grid)
    requires Rect(g)
    ensures |h| == |g| && Rect(h) && Cols(h) == Cols(g)
  {
    seq(|g|, i requires 0 <= i < |g| => g[Next(i, |g|)])
  }

  /** Column `j` of the result is column `j + 1` of `g`, the last column taking the first. */
  function RotateCols(g: Grid): (h: Grid)
    requires Rect(g)
    ensures |h| == |g| && Rect(h) && Cols(h) == Cols(g)
  {
    seq(|g|, i requires 0 <= i < |g| =>
      seq(Cols(g), j requires 0 <= j < Cols(g) => g[i][Next(j, Cols(g))]))
  }

  /** Wrapping a neighbour of the next index is the next index of the wrapped neighbour. */
  lemma WrapNext(i: int, d: int, n: int)
    requires 0 <= i < n && -1 <= d <= 1
    ensures Wrap(Next(i, n) + d, n) == Next(Wrap(i + d, n), n)
  {
  }

  lemma {:induction false} RowSumRotateRows(g: Grid, k: Grid, i: int, j: int, l: int, n: nat)
    requires InGrid(g, i, j) && IsKernel(k) && 0 <= l < 3 && n <= 3
    ensures InGrid(RotateRows(g), i, j) && InGrid(g, Next(i, |g|), j)
    ensures RowSum(RotateRows(g), k, i, j, l, n) == RowSum(g, k, Next(i, |g|), j, l, n)
  {
    if n > 0 {
      RowSumRotateRows(g, k, i, j, l, n - 1);
      WrapNext(i, l - 1, |g|);
    }
  }

  lemma {:induction false} BlockSumRotateRows(g: Grid, k: Grid, i: int, j: int, l: nat)
    requires InGrid(g, i, j) && IsKernel(k) && l <= 3
    ensures InGrid(RotateRows(g), i, j) && InGrid(g, Next(i, |g|), j)
    ensures BlockSum(RotateRows(g), k, i, j, l) == BlockSum(g, k, Next(i, |g|), j, l)
  {
    if l > 0 {
      BlockSumRotateRows(g, k, i, j, l - 1);
      RowSumRotateRows(g, k, i, j, l - 1, 3);
    }
  }

  lemma {:induction false} RowSumRotateCols(g: Grid, k: Grid, i: int, j: int, l: int, n: nat)
    requires InGrid(g, i, j) && IsKernel(k) && 0 <= l < 3 && n <= 3
    ensures InGrid(RotateCols(g), i, j) && InGrid(g, i, Next(j, Cols(g)))
    ensures RowSum(RotateCols(g), k, i, j, l, n) == RowSum(g, k, i, Next(j, Cols(g)), l, n)
  {
    if n > 0 {
      RowSumRotateCols(g, k, i, j, l, n - 1);
      WrapNext(j, n - 2, Cols(g));
    }
  }

  lemma {:induction false} BlockSumRotateCols(g: Grid, k: Grid, i: int, j: int, l: nat)
    requires InGrid(g, i, j) && IsKernel(k) && l <= 3
    ensures InGrid(RotateCols(g), i, j) && InGrid(g, i, Next(j, Cols(g)))
    ensures BlockSum(RotateCols(g), k, i, j, l) == BlockSum(g, k, i, Next(j, Cols(g)), l)
  {
    if l > 0 {
      BlockSumRotateCols(g, k, i, j, l - 1);
      RowSumRotateCols(g, k, i, j, l - 1, 3);
    }
  }

  /** Stepping a grid rotated by one row gives the stepped grid rotated by one row. */
  lemma StepCommutesWithRotateRows(g: Grid, k: Grid, act: real -> real)
    requires Rect(g) && IsKernel(k)
    ensures Step(RotateRows(g), k, act) == RotateRows(Step(g, k, act))
  {
    var lhs, rhs := Step(RotateRows(g), k, act), RotateRows(Step(g, k, act));
    forall i, j | 0 <= i < |lhs| && 0 <= j < Cols(lhs) ensures lhs[i][j] == rhs[i][j] {
      BlockSumRotateRows(g, k, i, j, 3);
      assert lhs[i][j] == Clamp(act(Conv(RotateRows(g), k, i, j)));
      assert rhs[i][j] == Step(g, k, act)[Next(i, |g|)][j] == Clamp(act(Conv(g, k, Next(i, |g|), j)));
    }
    SameCells(lhs, rhs);
  }

  /** Stepping a grid rotated by one column gives the stepped grid rotated by one column. */
  lemma StepCommutesWithRotateCols(g: Grid, k: Grid, act: real -> real)
    requires Rect(g) && IsKernel(k)
    ensures Step(RotateCols(g), k, act) == RotateCols(Step(g, k, act))
  {
    var lhs, rhs := Step(RotateCols(g), k, act), RotateCols(Step(g, k, act));
    forall i, j | 0 <= i < |lhs| && 0 <= j < Cols(lhs) ensures lhs[i][j] == rhs[i][j] {
      BlockSumRotateCols(g, k, i, j, 3);
      assert lhs[i][j] == Clamp(act(Conv(RotateCols(g), k, i, j)));
      assert rhs[i][j] == Step(g, k, act)[i][Next(j, Cols(g))] == Clamp(act(Conv(g, k, i, Next(j, Cols(g)))));
    }
    SameCells(lhs, rhs);
  }
}
