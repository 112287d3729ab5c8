/**
 * Integer index arithmetic of the automaton: the grid size derived from the
 * viewport, and the wrap of a neighbour index at the grid's edges.
 */
module GridMath {

  datatype SizeError = ZeroScale
  datatype Result<T> = Ok(value: T) | Err(error: SizeError)

  /** Python's `//`: the quotient rounded toward negative infinity. */
  function FloorDiv(a: int, b: int): (q: int)
    requires b != 0
    ensures b > 0 ==> b * q <= a < b * q + b
    ensures b < 0 ==> b * q + b < a <= b * q
  {
    if b > 0 then a / b else (-a) / (-b)
  }

  /**
   * The grid size `(vp[0] // scale, vp[1] // scale)`; a zero scale factor is
   * the division by zero Python raises.
   */
  function GridSize(vpW: int, vpH: int, scale: int): (r: Result<(int, int)>)
    ensures r.Err? <==> scale == 0
    ensures r.Ok? && scale > 0 ==>
      r.value.0 * scale <= vpW < r.value.0 * scale + scale &&
      r.value.1 * scale <= vpH < r.value.1 * scale + scale
    ensures r.Ok? && scale < 0 ==>
      r.value.0 * scale + scale < vpW <= r.value.0 * scale &&
      r.value.1 * scale + scale < vpH <= r.value.1 * scale
    ensures r.Ok? && scale > 0 && vpW >= 0 && vpH >= 0 ==> r.value.0 >= 0 && r.value.1 >= 0
  {
    if scale == 0 then Err(ZeroScale) else Ok((FloorDiv(vpW, scale), FloorDiv(vpH, scale)))
  }

  /** The grid covers the viewport exactly iff the scale factor divides both dimensions. */
  lemma GridCoversViewport(vpW: nat, vpH: nat, scale: nat)
    requires scale >= 1
    ensures GridSize(vpW, vpH, scale).Ok?
    ensures var (w, h) := GridSize(vpW, vpH, scale).value;
      (w * scale == vpW && h * scale == vpH) <==> (vpW % scale == 0 && vpH % scale == 0)
  {
    var (w, h) := GridSize(vpW, vpH, scale).value;
    assert w == vpW / scale && h == vpH / scale;
    assert vpW == scale * w + vpW % scale;
    assert vpH == scale * h + vpH % scale;
  }

  /**
   * The neighbour-index correction as update_grid writes it: add `n` below 0,
   * but subtract `n` only when the index EXCEEDS `n`, so the result of an
   * index from -1 to `n` lies in [0, n], one wider than the grid.
   */
  function SourceWrap(r: int, n: int): (k: int)
    ensures n >= 1 && -1 <= r <= n ==> 0 <= k <= n
  {
    if r < 0 then r + n else if r > n then r - n else r
  }

  /** The toroidal wrap the automaton needs: the upper test is `r >= n`. */
  function Wrap(r: int, n: int): (k: int)
    ensures n >= 1 && -1 <= r <= n ==> 0 <= k < n
  {
    if r < 0 then r + n else if r >= n then r - n else r
  }

  /**
   * For the neighbour indices the step produces (one below to one past the
   * grid), the source's wrap lands inside the grid exactly when the index is
   * not one past the end; there it agrees with Wrap, and one past the end it
   * is left unchanged.
   */
  lemma SourceWrapRange(r: int, n: int)
    requires n >= 1 && -1 <= r <= n
    ensures 0 <= SourceWrap(r, n) < n <==> r < n
    ensures r == -1 ==> SourceWrap(r, n) == n - 1
    ensures 0 <= r < n ==> SourceWrap(r, n) == r
    ensures r < n ==> SourceWrap(r, n) == Wrap(r, n)
    ensures r == n ==> SourceWrap(r, n) == n
  {
  }

  /**
   * Every grid has a cell whose step, as written, reads outside the grid:
   * the last row `i = w - 1` with kernel row `l = 2` asks for row `w`.
   */
  lemma SourceStepReadsPastLastRow(w: int)
    requires w >= 1
    ensures var i, l := w - 1, 2;
      0 <= i < w && SourceWrap(i + l - 1, w) == w
  {
  }

  /** A positive factor times at least one is at least that factor. */
  lemma MulAtLeast(a: int, b: int)
    requires a > 0 && b >= 1
    ensures a * b >= a
    decreases b
  {
    if b > 1 {
      MulAtLeast(a, b - 1);
      assert a * b == a * (b - 1) + a;
    }
  }

  /** Euclidean quotient and remainder are unique. */
  lemma ModUnique(y: int, n: int, m: int, r: int)
    requires n > 0 && 0 <= r < n && y == n * m + r
    ensures y / n == m && y % n == r
  {
    var q, s := y / n, y % n;
    assert y == n * q + s && 0 <= s < n;
    assert n * (m - q) == s - r;
    if q < m {
      MulAtLeast(n, m - q);
    } else if q > m {
      MulAtLeast(n, q - m);
    }
  }

  /** On the indices the step produces, Wrap is the mathematical modulo a torus needs. */
  lemma WrapIsModulo(r: int, n: int)
    requires n >= 1 && -1 <= r <= n
    ensures Wrap(r, n) == r % n
  {
    if r < 0 {
      ModUnique(r, n, -1, r + n);
    } else if r >= n {
      ModUnique(r, n, 1, r - n);
    } else {
      ModUnique(r, n, 0, r);
    }
  }
}
