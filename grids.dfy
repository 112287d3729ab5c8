/** Rectangular two-dimensional sequences: the value view of a 2-D field. */
module Grids {

  /** Number of columns, read off the first row (0 for a grid with no rows). */
  function Cols<T>(g: seq<seq<T>>): nat {
    if |g| == 0 then 0 else |g[0]|
  }

  /** Every row has the same length. */
  predicate Rect<T>(g: seq<seq<T>>) {
    forall i :: 0 <= i < |g| ==> |g[i]| == Cols(g)
  }

  /** Two rectangles of the same shape that agree cell by cell are equal. */
  lemma SameCells<T>(s: seq<seq<T>>, t: seq<seq<T>>)
    requires Rect(s) && Rect(t) && |s| == |t| && Cols(s) == Cols(t)
    requires forall i, j :: 0 <= i < |s| && 0 <= j < Cols(s) ==> s[i][j] == t[i][j]
    ensures s == t
  {
    forall i | 0 <= i < |s| ensures s[i] == t[i] {
      assert |s[i]| == |t[i]|;
    }
  }
}
