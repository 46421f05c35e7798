/** The corrector itself: the row-major sweep over the working grid, which it
    overwrites in place, filling a separate output grid of rounded results. */
module Corrector {
  import opened Numeric
  import opened Grids
  import opened Regulation
  import opened Estimator
  import opened Relaxation

  /** The sum of the array cells at `cells`, read in place. */
  function SumAt(a: array2<real>, cells: seq<Cell>): (r: real)
    reads a
    requires a.Length0 >= 2 && a.Length1 >= 2
    ensures r == Sum(Contents(a), cells)
  {
    if cells == [] then 0.0
    else
      var c := cells[0];
      (if 0 <= c.0 < a.Length0 && 0 <= c.1 < a.Length1 then a[c.0, c.1] else 0.0) + SumAt(a, cells[1..])
  }

  /** The crosstalk estimate of cell (i, j), read from the array in place:
      it agrees with the estimate of the array's contents. */
  function EstimateAt(a: array2<real>, i: int, j: int, iteration: nat, f: Factors): (r: real)
    reads a
    requires a.Length0 >= 2 && a.Length1 >= 2
    requires 0 <= i < a.Length0 && 0 <= j < a.Length1
    ensures r == Estimate(Contents(a), i, j, iteration, f)
  {
    var p := Classify(a.Length0, a.Length1, i, j);
    var ns := Neighbours(a.Length0, a.Length1, p, i, j);
    Decayed(f, p, iteration) * SumAt(a, ns) / (if p == Interior then 4.0 else 3.0)
  }

  /** The local fixed-point loop of cell (i, j). Each iteration estimates the
      crosstalk from the live working grid, refines the cell to
      `|cell - estimate|`, stops on convergence or once the iteration index
      passes `maxIterations`, and otherwise writes the refined value back.
      Only cell (i, j) of the working grid changes; the last refined value is
      returned. */
  method RelaxCell(data: array2<real>, i: int, j: int, maxIterations: int, tolerance: real, f: Factors)
    returns (result: real)
    requires data.Length0 >= 2 && data.Length1 >= 2
    requires 0 <= i < data.Length0 && 0 <= j < data.Length1
    modifies data
    ensures var run := RunAt(old(Contents(data)), i, j, Params(f, maxIterations, tolerance));
            && result == run.result
            && Contents(data) == Update(old(Contents(data)), i, j, run.committed)
  {
    ghost var g := Contents(data);
    ghost var estimates := Estimates(g, i, j, f, Budget(maxIterations));
    forall v, t | 0 <= t < |estimates|
      ensures Estimate(Update(g, i, j, v), i, j, t, f) == estimates[t]
    {
      EstimateDuringRun(g, i, j, v, f, |estimates|, t);
    }
    result := RelaxLoop(data, i, j, maxIterations, tolerance, f, g, estimates);
  }

  /** The loop of `RelaxCell`, against the estimates `estimates[t]` that
      iteration `t` sees whatever value the cell holds by then. */
  method RelaxLoop(data: array2<real>, i: int, j: int, maxIterations: int, tolerance: real, f: Factors,
                   ghost g: Grid, ghost estimates: seq<real>)
    returns (result: real)
    requires IsGrid(g) && InGrid(g, (i, j))
    requires Contents(data) == g
    requires |estimates| == Budget(maxIterations)
    requires forall v, t {:trigger Estimate(Update(g, i, j, v), i, j, t, f)} ::
               0 <= t < |estimates| ==> Estimate(Update(g, i, j, v), i, j, t, f) == estimates[t]
    modifies data
    ensures var run := Relax(g[i][j], estimates, maxIterations, tolerance, 0);
            && result == run.result
            && Contents(data) == Update(g, i, j, run.committed)
  {
    ghost var run := Relax(g[i][j], estimates, maxIterations, tolerance, 0);
    UpdateSame(g, i, j);
    result := data[i, j];
    var count := if maxIterations + 2 > 0 then maxIterations + 2 else 0;
    var iteration := 0;
    while iteration < count
      invariant 0 <= iteration <= count == |estimates|
      invariant Contents(data) == Update(g, i, j, result)
      invariant Relax(result, estimates, maxIterations, tolerance, iteration).committed == run.committed
      invariant Relax(result, estimates, maxIterations, tolerance, iteration).result == run.result
    {
      ghost var v := result;
      RelaxStep(v, estimates, maxIterations, tolerance, iteration);
      var done;
      result, done := RelaxIteration(data, i, j, iteration, maxIterations, tolerance, f, g, estimates, v);
      if done {
        return;
      }
      iteration := iteration + 1;
    }
  }

  /** One pass of the loop body with the cell holding `v`: estimate from the
      live grid, refine, and write the refined value back unless the loop is
      about to stop. */
  method RelaxIteration(data: array2<real>, i: int, j: int, iteration: int, maxIterations: int, tolerance: real,
                        f: Factors, ghost g: Grid, ghost estimates: seq<real>, ghost v: real)
    returns (result: real, done: bool)
    requires IsGrid(g) && InGrid(g, (i, j))
    requires 0 <= iteration < |estimates|
    requires Contents(data) == Update(g, i, j, v)
    requires forall v, t {:trigger Estimate(Update(g, i, j, v), i, j, t, f)} ::
               0 <= t < |estimates| ==> Estimate(Update(g, i, j, v), i, j, t, f) == estimates[t]
    modifies data
    ensures result == Abs(v - estimates[iteration])
    ensures done == (Abs(result - v) < tolerance || iteration > maxIterations)
    ensures Contents(data) == Update(g, i, j, if done then v else result)
  {
    var crosstalkEstimation := EstimateAt(data, i, j, iteration, f);
    result := Abs(data[i, j] - crosstalkEstimation);
    if Abs(result - data[i, j]) < tolerance {
      return result, true;
    }
    if iteration > maxIterations {
      return result, true;
    }
    data[i, j] := result;
    ContentsIs(data, Update(g, i, j, result));
    done := false;
  }

  /** Cells of `corrected` before sweep position (i, j) hold the rounded
      last result of their loop under `rule`; the others still hold the
      0.0 they were allocated with. */
  ghost predicate FilledUpTo(corrected: array2<real>, g0: Grid, rule: CellRule, i: int, j: int)
    requires IsGrid(g0)
    reads corrected
  {
    && corrected.Length0 == |g0| && corrected.Length1 == |g0[0]|
    && (forall a, b :: 0 <= a < |g0| && 0 <= b < |g0[0]| && (a < i || (a == i && b < j)) ==>
          corrected[a, b] == OutputUnder(g0, rule, a, b) as real)
    && (forall a, b :: 0 <= a < |g0| && 0 <= b < |g0[0]| && (a > i || (a == i && b >= j)) ==>
          corrected[a, b] == 0.0)
  }

  /** Filling cell (i, j) with its output moves the filled prefix on by one. */
  lemma FilledStep(corrected: array2<real>, g0: Grid, rule: CellRule, i: int, j: int)
    requires IsGrid(g0) && 0 <= i < |g0| && 0 <= j < |g0[0]|
    requires corrected.Length0 == |g0| && corrected.Length1 == |g0[0]|
    requires corrected[i, j] == OutputUnder(g0, rule, i, j) as real
    requires forall a, b :: 0 <= a < |g0| && 0 <= b < |g0[0]| && (a < i || (a == i && b < j)) ==>
               corrected[a, b] == OutputUnder(g0, rule, a, b) as real
    requires forall a, b :: 0 <= a < |g0| && 0 <= b < |g0[0]| && (a > i || (a == i && b > j)) ==>
               corrected[a, b] == 0.0
    ensures FilledUpTo(corrected, g0, rule, i, j + 1)
  {
  }

  /** One cell of the sweep: runs the cell's loop on the working grid and
      writes its rounded last result into the output grid. */
  method CorrectCell(data: array2<real>, corrected: array2<real>, i: int, j: int,
                     maxIterations: int, tolerance: real, f: Factors, ghost g0: Grid, ghost rule: CellRule)
    requires data != corrected
    requires Runs(rule, Params(f, maxIterations, tolerance))
    requires IsGrid(g0) && data.Length0 == |g0| && data.Length1 == |g0[0]|
    requires 0 <= i < data.Length0 && 0 <= j < data.Length1
    requires Contents(data) == Before(g0, rule, i, j)
    requires FilledUpTo(corrected, g0, rule, i, j)
    modifies data, corrected
    ensures Contents(data) == Before(g0, rule, i, j + 1)
    ensures FilledUpTo(corrected, g0, rule, i, j + 1)
  {
    ghost var ps := Params(f, maxIterations, tolerance);
    ghost var g := Contents(data);
    BeforeNext(g0, rule, i, j);
    var result := RelaxCell(data, i, j, maxIterations, tolerance, f);
    assert rule(g, i, j) == RunAt(g, i, j, ps);
    corrected[i, j] := Round(result) as real;
    FilledStep(corrected, g0, rule, i, j);
  }

  /** The inner loop of the sweep: the cells of row `i`, left to right. */
  method CorrectRow(data: array2<real>, corrected: array2<real>, i: int,
                    maxIterations: int, tolerance: real, f: Factors, ghost g0: Grid, ghost rule: CellRule)
    requires data != corrected
    requires Runs(rule, Params(f, maxIterations, tolerance))
    requires IsGrid(g0) && data.Length0 == |g0| && data.Length1 == |g0[0]|
    requires 0 <= i < data.Length0
    requires Contents(data) == Before(g0, rule, i, 0)
    requires FilledUpTo(corrected, g0, rule, i, 0)
    modifies data, corrected
    ensures Contents(data) == Before(g0, rule, i + 1, 0)
    ensures FilledUpTo(corrected, g0, rule, i + 1, 0)
  {
    var j := 0;
    while j < data.Length1
      invariant 0 <= j <= data.Length1
      invariant Contents(data) == Before(g0, rule, i, j)
      invariant FilledUpTo(corrected, g0, rule, i, j)
    {
      CorrectCell(data, corrected, i, j, maxIterations, tolerance, f, g0, rule);
      j := j + 1;
    }
    BeforeNext(g0, rule, i, j - 1);
  }

  /** Corrects a grid of at least 2 x 2 cells. Cells are visited in row-major
      order; each runs its local loop against the working grid as earlier
      cells left it, and its rounded last result goes into the output grid.
      Afterwards the working grid holds every cell's committed value. */
  method RemoveCrosstalkIterative(data: array2<real>, maxIterations: int, tolerance: real, f: Factors)
    returns (corrected: array2<real>)
    requires data.Length0 >= 2 && data.Length1 >= 2
    modifies data
    ensures fresh(corrected)
    ensures corrected.Length0 == data.Length0 && corrected.Length1 == data.Length1
    ensures Contents(data) == Swept(old(Contents(data)), Params(f, maxIterations, tolerance))
    ensures forall a, b :: 0 <= a < data.Length0 && 0 <= b < data.Length1 ==>
              corrected[a, b] == Output(old(Contents(data)), Params(f, maxIterations, tolerance), a, b) as real
  {
    ghost var g0 := Contents(data);
    ghost var ps := Params(f, maxIterations, tolerance);
    ghost var rule := Running(ps);
    RunningRuns(ps);
    corrected := new real[data.Length0, data.Length1]((_, _) => 0.0);
    var i := 0;
    while i < data.Length0
      invariant 0 <= i <= data.Length0
      invariant Contents(data) == Before(g0, rule, i, 0)
      invariant FilledUpTo(corrected, g0, rule, i, 0)
    {
      CorrectRow(data, corrected, i, maxIterations, tolerance, f, g0, rule);
      i := i + 1;
    }
  }
}
