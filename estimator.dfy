/** The crosstalk estimator: sorts a cell into one of nine topological
    positions and averages the neighbours that position prescribes, scaled by
    the decayed regulation factor of its class. */
module Estimator {
  import opened Grids
  import opened Regulation

  /** The nine positions, in the order the branch chain tests them. */
  datatype Position =
    | TopLeft | BottomRight | BottomLeft | TopRight
    | TopEdge | BottomEdge | LeftEdge | RightEdge
    | Interior
  {
    predicate IsCorner()
    {
      this == TopLeft || this == BottomRight || this == BottomLeft || this == TopRight
    }
  }

  /** A corner of an R x C grid, defined from the bounds alone. */
  predicate IsCornerCell(rowCount: int, colCount: int, i: int, j: int)
  {
    (i == 0 || i == rowCount - 1) && (j == 0 || j == colCount - 1)
  }

  /** The branch chain of the estimator, with `rows` and `col` the last row and
      column indices. Being a function, it picks exactly one position; the
      postconditions say which cells each position covers. */
  function Classify(rowCount: int, colCount: int, i: int, j: int): (p: Position)
    requires 2 <= rowCount && 2 <= colCount
    requires 0 <= i < rowCount && 0 <= j < colCount
    ensures p == TopLeft <==> i == 0 && j == 0
    ensures p == BottomRight <==> i == rowCount - 1 && j == colCount - 1
    ensures p == BottomLeft <==> i == rowCount - 1 && j == 0
    ensures p == TopRight <==> i == 0 && j == colCount - 1
    ensures p == TopEdge <==> i == 0 && 0 < j < colCount - 1
    ensures p == BottomEdge <==> i == rowCount - 1 && 0 < j < colCount - 1
    ensures p == LeftEdge <==> j == 0 && 0 < i < rowCount - 1
    ensures p == RightEdge <==> j == colCount - 1 && 0 < i < rowCount - 1
    ensures p == Interior <==> 0 < i < rowCount - 1 && 0 < j < colCount - 1
    ensures p.IsCorner() <==> IsCornerCell(rowCount, colCount, i, j)
  {
    var rows, col := rowCount - 1, colCount - 1;
    if i == 0 && j == 0 then TopLeft
    else if i == rows && j == col then BottomRight
    else if i == rows && j == 0 then BottomLeft
    else if i == 0 && j == col then TopRight
    else if i == 0 && j != 0 && j != col then TopEdge
    else if i == rows && j != col && j != 0 then BottomEdge
    else if j == 0 && i != rows && i != 0 then LeftEdge
    else if j == col && i != rows && i != 0 then RightEdge
    else Interior
  }

  /** k1 for corners, k2 for edges, k3 for the interior. */
  function BaseFactor(f: Factors, p: Position): real
  {
    if p.IsCorner() then f.k1 else if p == Interior then f.k3 else f.k2
  }

  /** The regulation factor of position `p` at local iteration `iteration`. */
  function Decayed(f: Factors, p: Position, iteration: nat): real
  {
    Decay(BaseFactor(f, p), iteration, f.decayRate)
  }

  /** The cells the branch for position `p` adds up at (i, j) of an
      R x C grid, in the order it adds them, with `rows` and `col` the last row
      and column indices. */
  function Neighbours(rowCount: int, colCount: int, p: Position, i: int, j: int): seq<Cell>
  {
    var rows, col := rowCount - 1, colCount - 1;
    match p
    case TopLeft => [(1, 0), (0, 1), (1, 1)]
    case BottomRight => [(rows - 1, col), (rows, col - 1), (rows - 1, col - 1)]
    case BottomLeft => [(rows - 1, 0), (rows, 1), (rows - 1, 1)]
    case TopRight => [(0, col - 1), (1, col - 1), (1, col)]
    case TopEdge => [(i, j + 1), (i, j - 1), (i + 1, j)]
    case BottomEdge => [(i, j + 1), (i, j - 1), (i - 1, j)]
    case LeftEdge => [(i - 1, j), (i + 1, j), (i, j + 1)]
    case RightEdge => [(i - 1, j), (i + 1, j), (i, j - 1)]
    case Interior => [(i + 1, j), (i, j + 1), (i - 1, j), (i, j - 1)]
  }

  /** The neighbours of cell (i, j) of an R x C grid. */
  function NeighboursOf(rowCount: int, colCount: int, i: int, j: int): seq<Cell>
    requires 2 <= rowCount && 2 <= colCount
    requires 0 <= i < rowCount && 0 <= j < colCount
  {
    Neighbours(rowCount, colCount, Classify(rowCount, colCount, i, j), i, j)
  }

  /** `c` is one of the eight cells around (i, j). */
  predicate Surrounds(i: int, j: int, c: Cell)
  {
    c != (i, j) && i - 1 <= c.0 <= i + 1 && j - 1 <= c.1 <= j + 1
  }

  /** `c` is directly above, below, left or right of (i, j). */
  predicate Adjacent(i: int, j: int, c: Cell)
  {
    (c.0 == i && (c.1 == j - 1 || c.1 == j + 1)) || (c.1 == j && (c.0 == i - 1 || c.0 == i + 1))
  }

  /** The sum of the grid values at `cells`. A cell outside the grid would
      add nothing, but the neighbour table never lists one
      (`NeighboursAreGeometric`). */
  function Sum(g: Grid, cells: seq<Cell>): real
    requires IsGrid(g)
  {
    if cells == [] then 0.0
    else (if InGrid(g, cells[0]) then At(g, cells[0]) else 0.0) + Sum(g, cells[1..])
  }

  /** The crosstalk estimate for cell (i, j) at local iteration `iteration`:
      the decayed factor of the cell's class times the mean of its neighbours. */
  function Estimate(g: Grid, i: int, j: int, iteration: nat, f: Factors): (r: real)
    requires IsGrid(g) && InGrid(g, (i, j))
    ensures Decayed(f, Classify(|g|, |g[0]|, i, j), iteration) == 0.0 ==> r == 0.0
  {
    var p := Classify(|g|, |g[0]|, i, j);
    var ns := Neighbours(|g|, |g[0]|, p, i, j);
    Decayed(f, p, iteration) * Sum(g, ns) / (if p == Interior then 4.0 else 3.0)
  }

  /** The neighbour table has the intended geometry: a corner takes
      the three cells of its L-shape (both axis neighbours and the diagonal),
      every other cell takes exactly its in-grid axis neighbours (three on an
      edge, four inside). All are in bounds, none is the cell itself, none is
      listed twice. */
  lemma NeighboursAreGeometric(rowCount: int, colCount: int, i: int, j: int)
    requires 2 <= rowCount && 2 <= colCount
    requires 0 <= i < rowCount && 0 <= j < colCount
    ensures var p := Classify(rowCount, colCount, i, j);
            var ns := Neighbours(rowCount, colCount, p, i, j);
            && |ns| == (if p == Interior then 4 else 3)
            && (forall k, l :: 0 <= k < l < |ns| ==> ns[k] != ns[l])
            && (forall k :: 0 <= k < |ns| ==>
                  0 <= ns[k].0 < rowCount && 0 <= ns[k].1 < colCount && ns[k] != (i, j))
            && (forall c: Cell :: 0 <= c.0 < rowCount && 0 <= c.1 < colCount ==>
                  (c in ns <==>
                     if IsCornerCell(rowCount, colCount, i, j) then Surrounds(i, j, c) else Adjacent(i, j, c)))
  {
  }

  /** The estimate is the decayed factor of the cell's class (k1 for a
      corner, k2 for an edge, k3 inside) times the mean of the neighbour
      values: the divisor is the number of neighbours summed. */
  lemma EstimateIsMean(g: Grid, i: int, j: int, iteration: nat, f: Factors)
    requires IsGrid(g) && InGrid(g, (i, j))
    ensures var ns := NeighboursOf(|g|, |g[0]|, i, j);
            var k := if IsCornerCell(|g|, |g[0]|, i, j) then f.k1
                     else if 0 < i < |g| - 1 && 0 < j < |g[0]| - 1 then f.k3
                     else f.k2;
            Estimate(g, i, j, iteration, f) == Decay(k, iteration, f.decayRate) * Sum(g, ns) / (|ns| as real)
  {
    var p := Classify(|g|, |g[0]|, i, j);
    assert |Neighbours(|g|, |g[0]|, p, i, j)| == if p == Interior then 4 else 3;
  }

  /** `g` and `h` hold the same values at every listed cell. */
  predicate AgreeOn(g: Grid, h: Grid, cells: seq<Cell>)
    requires IsGrid(g) && IsGrid(h) && |g| == |h| && |g[0]| == |h[0]|
  {
    forall k :: 0 <= k < |cells| ==> InGrid(g, cells[k]) && At(g, cells[k]) == At(h, cells[k])
  }

  /** Two grids that agree on the listed cells give the same sum. */
  lemma {:induction false} SumAgrees(g: Grid, h: Grid, cells: seq<Cell>)
    requires IsGrid(g) && IsGrid(h) && |g| == |h| && |g[0]| == |h[0]|
    requires AgreeOn(g, h, cells)
    ensures Sum(g, cells) == Sum(h, cells)
  {
    if cells != [] {
      SumAgrees(g, h, cells[1..]);
    }
  }

  /** The estimate depends on the cell's neighbours only: two grids of the
      same shape that agree there give the same estimate. In particular it
      never reads the cell itself. */
  lemma EstimateIsLocal(g: Grid, h: Grid, i: int, j: int, iteration: nat, f: Factors)
    requires IsGrid(g) && IsGrid(h) && |g| == |h| && |g[0]| == |h[0]|
    requires InGrid(g, (i, j))
    requires AgreeOn(g, h, NeighboursOf(|g|, |g[0]|, i, j))
    ensures Estimate(g, i, j, iteration, f) == Estimate(h, i, j, iteration, f)
  {
    SumAgrees(g, h, NeighboursOf(|g|, |g[0]|, i, j));
  }

  /** Overwriting the cell being estimated does not change its estimate. */
  lemma EstimateIgnoresTarget(g: Grid, i: int, j: int, v: real, iteration: nat, f: Factors)
    requires IsGrid(g) && InGrid(g, (i, j))
    ensures Estimate(Update(g, i, j, v), i, j, iteration, f) == Estimate(g, i, j, iteration, f)
  {
    NeighboursAreGeometric(|g|, |g[0]|, i, j);
    EstimateIsLocal(g, Update(g, i, j, v), i, j, iteration, f);
  }
}
