/**
 * The renderer: nearest-neighbour magnification of the grid by the integer
 * scale factor, one grey value broadcast to the three colour channels.
 */
module Renderer {
  import opened Grids
  import opened GridMath
  import opened Cells

  datatype Rgb = Rgb(r: real, g: real, b: real)

  /** A framebuffer, pixel column `x` then pixel row `y`. */
  type Image = seq<seq<Rgb>>

  function Gray(v: real): Rgb {
    Rgb(v, v, v)
  }

  /** The grid index pixel coordinate `x` samples: `x // scale`. */
  function SourceIndex(x: nat, scale: nat): nat
    requires scale >= 1
  {
    x / scale
  }

  /** The lookup of pixel coordinate `x` stays below `size` iff `x < size * scale`. */
  lemma LookupInBounds(x: nat, size: nat, scale: nat)
    requires scale >= 1
    ensures SourceIndex(x, scale) < size <==> x < size * scale
  {
    var q := x / scale;
    assert x == scale * q + x % scale;
    if q < size {
      MulAtLeast(scale, size - q);
      assert scale * size == scale * q + scale * (size - q);
    } else if q > size {
      MulAtLeast(scale, q - size);
      assert scale * q == scale * size + scale * (q - size);
    }
  }

  /**
   * With the truncating grid size, every pixel of a viewport dimension looks
   * up a cell inside the grid iff the scale factor divides that dimension.
   */
  lemma AllLookupsInBoundsIffDivides(vp: nat, scale: nat)
    requires scale >= 1
    ensures (forall x: nat :: x < vp ==> SourceIndex(x, scale) < vp / scale) <==> vp % scale == 0
  {
    var size := vp / scale;
    assert vp == scale * size + vp % scale;
    if vp % scale != 0 {
      LookupInBounds(vp - 1, size, scale);
    } else {
      forall x: nat | x < vp ensures SourceIndex(x, scale) < size {
        LookupInBounds(x, size, scale);
      }
    }
  }

  /** Pixel `k` of block `b` (`0 <= k < scale`) samples cell `b`. */
  lemma BlockIndex(b: nat, k: nat, scale: nat)
    requires scale >= 1 && k < scale
    ensures SourceIndex(b * scale + k, scale) == b
  {
    ModUnique(b * scale + k, scale, b, k);
  }

  /** The grid is large enough for every lookup of a `vpW` × `vpH` viewport. */
  predicate Renderable(g: Grid, vpW: nat, vpH: nat, scale: nat) {
    scale >= 1 && Rect(g) && vpW <= |g| * scale && (vpW > 0 ==> vpH <= Cols(g) * scale)
  }

  /** The cell value pixel `(x, y)` shows: `grid[x // scale, y // scale]`. */
  function Sample(g: Grid, scale: nat, x: nat, y: nat): real
    requires scale >= 1 && Rect(g) && x < |g| * scale && y < Cols(g) * scale
  {
    LookupInBounds(x, |g|, scale);
    LookupInBounds(y, Cols(g), scale);
    g[SourceIndex(x, scale)][SourceIndex(y, scale)]
  }

  /** The framebuffer paint produces from grid `g`. */
  function Render(g: Grid, vpW: nat, vpH: nat, scale: nat): (img: Image)
    requires Renderable(g, vpW, vpH, scale)
    ensures |img| == vpW && Rect(img) && (vpW > 0 ==> Cols(img) == vpH)
    ensures forall x, y :: 0 <= x < vpW && 0 <= y < vpH ==>
      img[x][y].r == img[x][y].g == img[x][y].b
  {
    seq(vpW, x requires 0 <= x < vpW =>
      seq(vpH, y requires 0 <= y < vpH => Gray(Sample(g, scale, x, y))))
  }

  /**
   * Every pixel of the `scale` × `scale` block of cell `(row, col)` shows that
   * cell's value, in all three channels.
   */
  lemma RenderBlockConstant(g: Grid, vpW: nat, vpH: nat, scale: nat, row: nat, col: nat, dr: nat, dc: nat)
    requires Renderable(g, vpW, vpH, scale)
    requires dr < scale && dc < scale && row * scale + dr < vpW && col * scale + dc < vpH
    ensures row < |g| && col < Cols(g)
    ensures Render(g, vpW, vpH, scale)[row * scale + dr][col * scale + dc] == Gray(g[row][col])
  {
    BlockIndex(row, dr, scale);
    BlockIndex(col, dc, scale);
    LookupInBounds(row * scale + dr, |g|, scale);
    LookupInBounds(col * scale + dc, Cols(g), scale);
  }
}
