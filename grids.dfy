/** The grid of sensor magnitudes, as a value and as the mutable array the
    corrector works on. */
module Grids {

  /** A cell position (row, column). */
  type Cell = (int, int)

  /** A grid as a value: rows of real magnitudes. */
  type Grid = seq<seq<real>>

  /** A rectangular grid of at least two rows and two columns. */
  predicate IsGrid(g: Grid)
  {
    |g| >= 2 && |g[0]| >= 2 && forall r :: 0 <= r < |g| ==> |g[r]| == |g[0]|
  }

  predicate InGrid(g: Grid, c: Cell)
    requires IsGrid(g)
  {
    0 <= c.0 < |g| && 0 <= c.1 < |g[0]|
  }

  function At(g: Grid, c: Cell): real
    requires IsGrid(g) && InGrid(g, c)
  {
    g[c.0][c.1]
  }

  /** `g` with cell (i, j) overwritten by `v`. */
  function Update(g: Grid, i: int, j: int, v: real): (h: Grid)
    requires IsGrid(g) && InGrid(g, (i, j))
    ensures IsGrid(h) && |h| == |g| && |h[0]| == |g[0]|
    ensures h[i][j] == v
  {
    g[i := g[i][j := v]]
  }

  /** Every cell other than (i, j) keeps its value. */
  lemma UpdateKeepsOthers(g: Grid, i: int, j: int, v: real)
    requires IsGrid(g) && InGrid(g, (i, j))
    ensures forall a, b :: 0 <= a < |g| && 0 <= b < |g[0]| && (a, b) != (i, j) ==>
              Update(g, i, j, v)[a][b] == g[a][b]
  {
  }

  /** Writing back the value a cell already holds leaves the grid as it was. */
  lemma UpdateSame(g: Grid, i: int, j: int)
    requires IsGrid(g) && InGrid(g, (i, j))
    ensures Update(g, i, j, g[i][j]) == g
  {
    assert g[i][j := g[i][j]] == g[i];
  }

  /** The current contents of an array as a grid value. */
  function Contents(a: array2<real>): (g: Grid)
    reads a
    ensures |g| == a.Length0
    ensures forall r :: 0 <= r < |g| ==> |g[r]| == a.Length1
    ensures forall r, c :: 0 <= r < a.Length0 && 0 <= c < a.Length1 ==> g[r][c] == a[r, c]
  {
    seq(a.Length0, r requires 0 <= r < a.Length0 reads a =>
      seq(a.Length1, c requires 0 <= c < a.Length1 reads a => a[r, c]))
  }

  /** An array whose cells agree with a grid of its shape holds that grid. */
  lemma ContentsIs(a: array2<real>, g: Grid)
    requires |g| == a.Length0
    requires forall r :: 0 <= r < |g| ==> |g[r]| == a.Length1
    requires forall r, c :: 0 <= r < a.Length0 && 0 <= c < a.Length1 ==> g[r][c] == a[r, c]
    ensures Contents(a) == g
  {
    var h := Contents(a);
    forall r | 0 <= r < |g|
      ensures h[r] == g[r]
    {
      assert |h[r]| == |g[r]|;
    }
  }
}
