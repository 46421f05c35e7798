/** The meaning of the corrector as functions of the input grid: the bounded
    fixed-point run of one cell, and the working grid before each cell of the
    row-major sweep. */
module Relaxation {
  import opened Numeric
  import opened Grids
  import opened Regulation
  import opened Estimator

  /** The convergence parameters of one correction, with the factors. */
  datatype Params = Params(factors: Factors, maxIterations: int, tolerance: real)

  /** The number of local iterations `range(maxIterations + 2)` offers:
      none at all when `maxIterations <= -2`. */
  function Budget(maxIterations: int): nat
  {
    if maxIterations + 2 > 0 then maxIterations + 2 else 0
  }

  /** Why a cell's local loop ended. */
  datatype Stop =
    | Converged       // the refinement moved the value by less than the tolerance
    | BudgetExceeded  // the iteration index passed maxIterations
    | RangeExhausted  // the loop ran out of iterations without breaking

  /** The outcome of one cell's loop: the value left in the working grid, the
      last computed `result` (what the output grid receives), the number of
      estimates computed and of write-backs done, and why it stopped. */
  datatype CellRun = CellRun(committed: real, result: real, estimates: nat, writes: nat, stop: Stop)

  /** The estimates the loop of cell (i, j) computes at iterations 0 .. n-1 on
      working grid `g`. They never depend on the cell's own value
      (`EstimateIgnoresTarget`), so they stay the same while the loop
      overwrites that cell. */
  function Estimates(g: Grid, i: int, j: int, f: Factors, n: nat): (es: seq<real>)
    requires IsGrid(g) && InGrid(g, (i, j))
    ensures |es| == n
    ensures forall t {:trigger Estimate(g, i, j, t, f)} :: 0 <= t < n ==> es[t] == Estimate(g, i, j, t, f)
  {
    if n == 0 then [] else Estimates(g, i, j, f, n - 1) + [Estimate(g, i, j, n - 1, f)]
  }

  /** The local loop of one cell from iteration `iteration` on, with `v` the
      cell's current value in the working grid and `estimates` the estimate
      of each iteration. A refined value is written back only when neither
      the convergence check nor the budget check fires. */
  function Relax(v: real, estimates: seq<real>, maxIterations: int, tolerance: real, iteration: nat): CellRun
    decreases |estimates| - iteration
  {
    if iteration >= |estimates| then CellRun(v, v, 0, 0, RangeExhausted)
    else
      var result := Abs(v - estimates[iteration]);
      if Abs(result - v) < tolerance then CellRun(v, result, 1, 0, Converged)
      else if iteration > maxIterations then CellRun(v, result, 1, 0, BudgetExceeded)
      else
        var rest := Relax(result, estimates, maxIterations, tolerance, iteration + 1);
        rest.(estimates := rest.estimates + 1, writes := rest.writes + 1)
  }

  /** While cell (i, j) runs, only the cell itself changes, so every
      iteration sees the estimate of the grid the run started from. */
  lemma EstimateDuringRun(g: Grid, i: int, j: int, v: real, f: Factors, n: nat, iteration: nat)
    requires IsGrid(g) && InGrid(g, (i, j)) && iteration < n
    ensures Estimate(Update(g, i, j, v), i, j, iteration, f) == Estimates(g, i, j, f, n)[iteration]
  {
    EstimateIgnoresTarget(g, i, j, v, iteration, f);
  }

  /** One iteration of the loop: the refined value is kept in the grid only
      when the loop goes on, and the run from here is then the run from the
      next iteration on the refined value. */
  lemma RelaxStep(v: real, estimates: seq<real>, maxIterations: int, tolerance: real, iteration: nat)
    requires iteration < |estimates|
    ensures Abs(Abs(v - estimates[iteration]) - v) < tolerance || iteration > maxIterations ==>
              && Relax(v, estimates, maxIterations, tolerance, iteration).committed == v
              && Relax(v, estimates, maxIterations, tolerance, iteration).result == Abs(v - estimates[iteration])
    ensures !(Abs(Abs(v - estimates[iteration]) - v) < tolerance) && iteration <= maxIterations ==>
              && Relax(v, estimates, maxIterations, tolerance, iteration).committed
                 == Relax(Abs(v - estimates[iteration]), estimates, maxIterations, tolerance, iteration + 1).committed
              && Relax(v, estimates, maxIterations, tolerance, iteration).result
                 == Relax(Abs(v - estimates[iteration]), estimates, maxIterations, tolerance, iteration + 1).result
  {
  }

  /** The run of cell (i, j) when the sweep reaches it with working grid `g`. */
  function RunAt(g: Grid, i: int, j: int, ps: Params): CellRun
    requires IsGrid(g) && InGrid(g, (i, j))
  {
    Relax(g[i][j], Estimates(g, i, j, ps.factors, Budget(ps.maxIterations)),
          ps.maxIterations, ps.tolerance, 0)
  }

  /** How a cell is processed when the sweep reaches it: the run of cell
      (a, b) against working grid `g`. The sweep below is stated for any such
      rule, and this corrector's rule is `Running`. */
  type CellRule = (Grid, int, int) -> CellRun

  function Running(ps: Params): CellRule
  {
    (g: Grid, a: int, b: int) =>
      if IsGrid(g) && InGrid(g, (a, b)) then RunAt(g, a, b, ps) else CellRun(0.0, 0.0, 0, 0, RangeExhausted)
  }

  /** The working grid after processing cell (i, j). */
  function Step(g: Grid, i: int, j: int, rule: CellRule): Grid
    requires IsGrid(g) && InGrid(g, (i, j))
  {
    Update(g, i, j, rule(g, i, j).committed)
  }

  /** A sweep position: (i, j) with j <= C names the moment before cell (i, j)
      (after the whole of row i when j == C); (R, 0) names the end. */
  predicate IsPosition(g0: Grid, i: int, j: int)
    requires IsGrid(g0)
  {
    (0 <= i < |g0| && 0 <= j <= |g0[0]|) || (i == |g0| && j == 0)
  }

  /** The working grid at sweep position (i, j): every cell before it in
      row-major order has been processed, in that order, each against the
      grid its predecessors left. */
  function Before(g0: Grid, rule: CellRule, i: int, j: int): (g: Grid)
    requires IsGrid(g0) && IsPosition(g0, i, j)
    ensures IsGrid(g) && |g| == |g0| && |g[0]| == |g0[0]|
    decreases i, j
  {
    if j == 0 then
      if i == 0 then g0 else Before(g0, rule, i - 1, |g0[0]|)
    else
      Step(Before(g0, rule, i, j - 1), i, j - 1, rule)
  }

  /** One move of the sweep: cell (i, j) takes what its run commits, and the
      end of a row is the start of the next. */
  lemma BeforeNext(g0: Grid, rule: CellRule, i: int, j: int)
    requires IsGrid(g0) && 0 <= i < |g0| && 0 <= j < |g0[0]|
    ensures var g := Before(g0, rule, i, j);
            Before(g0, rule, i, j + 1) == Update(g, i, j, rule(g, i, j).committed)
    ensures j + 1 == |g0[0]| ==> Before(g0, rule, i + 1, 0) == Before(g0, rule, i, j + 1)
  {
  }

  /** `rule` agrees with this corrector's rule on every grid whose run is in
      view. */
  ghost predicate Runs(rule: CellRule, ps: Params)
  {
    forall g, a, b {:trigger RunAt(g, a, b, ps)} ::
      IsGrid(g) && InGrid(g, (a, b)) ==> rule(g, a, b) == RunAt(g, a, b, ps)
  }

  lemma RunningRuns(ps: Params)
    ensures Runs(Running(ps), ps)
  {
  }

  /** The working grid once the sweep is over. */
  function Swept(g0: Grid, ps: Params): Grid
    requires IsGrid(g0)
  {
    Before(g0, Running(ps), |g0|, 0)
  }

  /** The output cell (a, b) under `rule`: the rounded last result of its run. */
  function OutputUnder(g0: Grid, rule: CellRule, a: int, b: int): int
    requires IsGrid(g0) && InGrid(g0, (a, b))
  {
    Round(rule(Before(g0, rule, a, b), a, b).result)
  }

  /** The corrected output at cell (a, b). */
  function Output(g0: Grid, ps: Params, a: int, b: int): int
    requires IsGrid(g0) && InGrid(g0, (a, b))
  {
    OutputUnder(g0, Running(ps), a, b)
  }

  /** A loop whose budget is the whole estimate sequence: with iterations
      left it computes between one estimate and all that are left, and writes
      back after every one but the last; with none left it changes nothing. */
  lemma {:induction false} RelaxCounts(v: real, estimates: seq<real>, maxIterations: int, tolerance: real, iteration: nat)
    requires |estimates| == Budget(maxIterations)
    ensures var run := Relax(v, estimates, maxIterations, tolerance, iteration);
            && (run.stop == RangeExhausted <==> iteration >= |estimates|)
            && (iteration >= |estimates| ==> run == CellRun(v, v, 0, 0, RangeExhausted))
            && (iteration < |estimates| ==>
                  1 <= run.estimates <= |estimates| - iteration
                  && run.writes == run.estimates - 1)
    decreases |estimates| - iteration
  {
    if iteration < |estimates| {
      var result := Abs(v - estimates[iteration]);
      if !(Abs(result - v) < tolerance) && !(iteration > maxIterations) {
        RelaxCounts(result, estimates, maxIterations, tolerance, iteration + 1);
      }
    }
  }

  /** Bounds on one cell's work: at most `maxIterations + 2` estimates and at
      most `maxIterations + 1` write-backs. */
  lemma CellWorkBounded(g: Grid, i: int, j: int, ps: Params)
    requires IsGrid(g) && InGrid(g, (i, j))
    ensures var run := RunAt(g, i, j, ps);
            && run.estimates <= Budget(ps.maxIterations)
            && (run.writes == 0 || run.writes <= ps.maxIterations + 1)
            && (ps.maxIterations >= -1 <==> run.estimates >= 1)
  {
    RelaxCounts(g[i][j], Estimates(g, i, j, ps.factors, Budget(ps.maxIterations)),
                ps.maxIterations, ps.tolerance, 0);
  }

  /** The output is one refinement ahead of the working grid: the last result
      is `|committed - e|` for the estimate `e` of the last iteration. The loop
      stopped on convergence exactly when that result lies within the
      tolerance of the committed value; otherwise it stopped on the budget, at
      iteration `maxIterations + 1`. */
  lemma {:induction false} RelaxLastStep(v: real, estimates: seq<real>, maxIterations: int, tolerance: real, iteration: nat)
    requires |estimates| == Budget(maxIterations)
    requires iteration < |estimates|
    ensures var run := Relax(v, estimates, maxIterations, tolerance, iteration);
            var last := iteration + run.estimates - 1;
            && iteration <= last < |estimates|
            && run.result == Abs(run.committed - estimates[last])
            && (run.stop == Converged <==> Abs(run.result - run.committed) < tolerance)
            && (run.stop == BudgetExceeded ==> last == maxIterations + 1)
    decreases |estimates| - iteration
  {
    RelaxCounts(v, estimates, maxIterations, tolerance, iteration);
    var result := Abs(v - estimates[iteration]);
    if !(Abs(result - v) < tolerance) && !(iteration > maxIterations) {
      RelaxLastStep(result, estimates, maxIterations, tolerance, iteration + 1);
    }
  }

  /** Gauss-Seidel order: at sweep position (i, j), every cell before it in
      row-major order holds what was committed for it against the grid its
      predecessors left, and every cell from (i, j) on still holds its input
      value. */
  lemma {:induction false} BeforeRowMajor(g0: Grid, rule: CellRule, i: int, j: int, a: int, b: int)
    requires IsGrid(g0) && IsPosition(g0, i, j)
    requires 0 <= a < |g0| && 0 <= b < |g0[0]|
    ensures (a > i || (a == i && b >= j)) ==> Before(g0, rule, i, j)[a][b] == g0[a][b]
    ensures (a < i || (a == i && b < j)) ==>
              Before(g0, rule, i, j)[a][b] == rule(Before(g0, rule, a, b), a, b).committed
    decreases i, j
  {
    if j == 0 {
      if i > 0 {
        BeforeRowMajor(g0, rule, i - 1, |g0[0]|, a, b);
      }
    } else {
      var g := Before(g0, rule, i, j - 1);
      if (a, b) != (i, j - 1) {
        BeforeRowMajor(g0, rule, i, j - 1, a, b);
        UpdateKeepsOthers(g, i, j - 1, rule(g, i, j - 1).committed);
      }
    }
  }

  /** When the rule commits to every cell of the input the value it already
      holds, the sweep never changes the working grid. */
  lemma {:induction false} IdleSweep(g0: Grid, rule: CellRule, i: int, j: int)
    requires IsGrid(g0) && IsPosition(g0, i, j)
    requires forall a, b :: 0 <= a < |g0| && 0 <= b < |g0[0]| ==> rule(g0, a, b).committed == g0[a][b]
    ensures Before(g0, rule, i, j) == g0
    decreases i, j
  {
    if j == 0 {
      if i > 0 {
        IdleSweep(g0, rule, i - 1, |g0[0]|);
      }
    } else {
      IdleSweep(g0, rule, i, j - 1);
      UpdateSame(g0, i, j - 1);
    }
  }

  /** With `maxIterations + 2 <= 0` no cell runs a single iteration: the working
      grid is untouched and each output is the rounded input. */
  lemma NoIterations(g0: Grid, ps: Params)
    requires IsGrid(g0) && ps.maxIterations <= -2
    ensures Swept(g0, ps) == g0
    ensures forall a, b :: 0 <= a < |g0| && 0 <= b < |g0[0]| ==>
              Output(g0, ps, a, b) == Round(g0[a][b])
  {
    forall a, b | 0 <= a < |g0| && 0 <= b < |g0[0]|
      ensures Running(ps)(g0, a, b).committed == g0[a][b]
      ensures RunAt(g0, a, b, ps).result == g0[a][b]
    {
    }
    IdleSweep(g0, Running(ps), |g0|, 0);
    forall a, b | 0 <= a < |g0| && 0 <= b < |g0[0]|
      ensures Output(g0, ps, a, b) == Round(g0[a][b])
    {
      IdleSweep(g0, Running(ps), a, b);
    }
  }

  /** With all three factors zero, a positive tolerance and a non-negative
      input, each cell's loop converges on its first iteration (when it has
      one) with no write-back: the working grid is untouched and each output
      is the rounded input. */
  lemma ZeroFactors(g0: Grid, ps: Params)
    requires IsGrid(g0)
    requires ps.factors.k1 == 0.0 && ps.factors.k2 == 0.0 && ps.factors.k3 == 0.0
    requires ps.tolerance > 0.0
    requires forall a, b :: 0 <= a < |g0| && 0 <= b < |g0[0]| ==> g0[a][b] >= 0.0
    ensures Swept(g0, ps) == g0
    ensures forall a, b :: 0 <= a < |g0| && 0 <= b < |g0[0]| ==>
              var run := RunAt(g0, a, b, ps);
              && run.writes == 0
              && (Budget(ps.maxIterations) > 0 ==> run.stop == Converged && run.estimates == 1)
              && Output(g0, ps, a, b) == Round(g0[a][b])
  {
    forall a, b | 0 <= a < |g0| && 0 <= b < |g0[0]|
      ensures var run := RunAt(g0, a, b, ps);
              && run.committed == g0[a][b] && run.result == g0[a][b] && run.writes == 0
              && (Budget(ps.maxIterations) > 0 ==> run.stop == Converged && run.estimates == 1)
    {
      var p := Classify(|g0|, |g0[0]|, a, b);
      assert BaseFactor(ps.factors, p) == 0.0;
      assert Estimate(g0, a, b, 0, ps.factors) == 0.0;
    }
    IdleSweep(g0, Running(ps), |g0|, 0);
    forall a, b | 0 <= a < |g0| && 0 <= b < |g0[0]|
      ensures Output(g0, ps, a, b) == Round(g0[a][b])
    {
      IdleSweep(g0, Running(ps), a, b);
    }
  }

  /** With at least one iteration per cell (`maxIterations >= -1`), every
      output cell is the rounding of an absolute value, hence non-negative. */
  lemma OutputNonNegative(g0: Grid, ps: Params, a: int, b: int)
    requires IsGrid(g0) && InGrid(g0, (a, b))
    requires ps.maxIterations >= -1
    ensures Output(g0, ps, a, b) >= 0
  {
    RunNonNegative(Before(g0, Running(ps), a, b), a, b, ps);
  }

  /** With at least one iteration, the last result of a run is an absolute
      value. */
  lemma RunNonNegative(g: Grid, i: int, j: int, ps: Params)
    requires IsGrid(g) && InGrid(g, (i, j))
    requires ps.maxIterations >= -1
    ensures RunAt(g, i, j, ps).result >= 0.0
  {
    var estimates := Estimates(g, i, j, ps.factors, Budget(ps.maxIterations));
    RelaxLastStep(g[i][j], estimates, ps.maxIterations, ps.tolerance, 0);
  }
}
