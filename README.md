# Iterative crosstalk removal for a pressure-sensor matrix

The program corrects a rectangular matrix of sensor readings for crosstalk
between neighbouring cells. It visits the cells in row-major order. For each
cell it runs a short fixed-point loop: estimate the crosstalk the cell
receives from its neighbours, refine the cell to `|cell - estimate|`, and stop
when the refinement moves the value by less than a tolerance or when the
iteration budget (`max_iterations + 2` passes) runs out. Refined values are
written back into the input matrix, so later cells see earlier cells'
corrected values (Gauss-Seidel order). The rounded last result of each cell
goes into a separate output matrix.

The crosstalk estimate of a cell sorts it into one of nine positions (four
corners, four edges, the interior), averages a fixed set of neighbours for
that position and scales the average by a regulation factor (`k1` for
corners, `k2` for edges, `k3` inside) that decays geometrically with the
iteration index.

The project has six modules:

- `Numeric` (numeric.dfy): absolute value and Python's half-to-even `round`.
- `Regulation` (regulation.dfy): the factor record, its default values and
  the decay function.
- `Grids` (grids.dfy): a grid as a value (`seq<seq<real>>`) and the
  contents of the mutable `array2<real>` the corrector works on.
- `Estimator` (estimator.dfy): the position classifier, the neighbour
  table and the estimate, as functions on grid values.
- `Relaxation` (relaxation.dfy): what the corrector computes, as functions
  of the input grid. `Relax` is one cell's loop, `Before` is the working grid
  at each point of the sweep, and `Output` is the output matrix.
- `Corrector` (corrector.dfy): the corrector itself. It is a set of methods
  with loops and `break`s that overwrite the working array in place and fill
  a freshly allocated output array. Each method is proved against the
  `Relaxation` functions.

## Model

| member | source | states |
|---|---|---|
| Numeric.Abs | remove_crosstalk_sensor_1.0.py:28-31 | the result is non-negative and is either the argument or its negation |
| Numeric.Round | remove_crosstalk_sensor_1.0.py:40 | the result is an integer within 1/2 of the argument; on a tie it is the even neighbour; a non-negative argument rounds to a non-negative integer |
| Regulation.Decay | remove_crosstalk_sensor_1.0.py:69-72 | at iteration 0 the factor is the initial value; with rate 0 it is 0 from iteration 1 on; a zero initial value stays 0 |
| Regulation.DecayShrinks | remove_crosstalk_sensor_1.0.py:69-72 | for a non-negative initial value and a rate in [0, 1], each iteration's factor lies between 0 and the previous one, strictly below it for a positive value and a rate in (0, 1), and never above the initial value |
| Regulation.DecayCompose | remove_crosstalk_sensor_1.0.py:69-72 | decaying by m iterations and then by n more equals decaying by m + n iterations |
| Estimator.Classify | remove_crosstalk_sensor_1.0.py:47-65 | for a grid of at least 2 x 2, each of the nine positions is chosen exactly for the cells its geometric condition describes; the branches are exhaustive and disjoint; the four corner branches together cover exactly the corner cells; the final branch is taken exactly when 0 < i < rows and 0 < j < col |
| Estimator.NeighboursAreGeometric | remove_crosstalk_sensor_1.0.py:47-65 | every cell the branch chain reads is inside the grid and is not the target; no cell is read twice; a corner reads exactly its three L-shaped neighbours, including the diagonal; any other cell reads exactly its in-grid axis neighbours (three on an edge, four inside) |
| Estimator.Estimate | remove_crosstalk_sensor_1.0.py:44-67 | the estimate is 0 whenever the decayed factor of the cell's class is 0 |
| Estimator.EstimateIsMean | remove_crosstalk_sensor_1.0.py:50-65 | the estimate is the decayed k1, k2 or k3 of the cell's class times the neighbour sum divided by the number of neighbours summed |
| Estimator.EstimateIsLocal | remove_crosstalk_sensor_1.0.py:55-65 | two grids that agree on the cell's neighbours give the same estimate |
| Estimator.EstimateIgnoresTarget | remove_crosstalk_sensor_1.0.py:55-65 | overwriting the target cell does not change its estimate |
| Relaxation.EstimateDuringRun | remove_crosstalk_sensor_1.0.py:19-38 | while cell (i, j) is being refined, the estimate of every iteration is the one computed on the grid the cell's loop started from |
| Relaxation.RelaxCounts | remove_crosstalk_sensor_1.0.py:21-38 | the loop ends by running out of its range exactly when no iteration is left; with iterations left it computes between one estimate and all that are left, and writes back after every estimate but the last |
| Relaxation.CellWorkBounded | remove_crosstalk_sensor_1.0.py:21-38 | one cell computes at most `max_iterations + 2` estimates and writes back at most `max_iterations + 1` times; it computes at least one estimate exactly when `max_iterations >= -1` |
| Relaxation.RelaxLastStep | remove_crosstalk_sensor_1.0.py:28-40 | the output value is one refinement ahead of the value left in the grid; the loop stopped on convergence exactly when they differ by less than the tolerance; a budget stop happens at iteration `max_iterations + 1` |
| Relaxation.BeforeRowMajor | remove_crosstalk_sensor_1.0.py:15-38 | when the sweep reaches a cell, every earlier cell in row-major order holds the value committed for it against the grid its predecessors left, and every later cell still holds its input value |
| Relaxation.IdleSweep | remove_crosstalk_sensor_1.0.py:15-38 | a sweep whose cells all commit their input value leaves the working grid unchanged |
| Relaxation.NoIterations | remove_crosstalk_sensor_1.0.py:19-21 | with `max_iterations <= -2` no loop runs; the working grid is unchanged and each output cell is the rounded input |
| Relaxation.ZeroFactors | remove_crosstalk_sensor_1.0.py:24-40 | with k1 = k2 = k3 = 0, a positive tolerance and a non-negative input, every cell converges at iteration 0 without a write-back; the working grid is unchanged and each output cell is the rounded input |
| Relaxation.OutputNonNegative | remove_crosstalk_sensor_1.0.py:21-40 | with at least one iteration per cell, every output cell is non-negative |
| Relaxation.RunNonNegative | remove_crosstalk_sensor_1.0.py:21-31 | with at least one iteration, a cell's last result is non-negative |
| Corrector.SumAt | remove_crosstalk_sensor_1.0.py:55-65 | summing the listed cells by reading the array in place gives the neighbour sum of the array's contents |
| Corrector.EstimateAt | remove_crosstalk_sensor_1.0.py:44-67 | the estimate read from the array in place, touching only the listed neighbours, equals the estimate of the array's contents |
| Corrector.RelaxIteration | remove_crosstalk_sensor_1.0.py:24-38 | one pass computes `|cell - estimate|`, reports a stop exactly when the convergence or the budget check fires, and writes the refined value into cell (i, j) only when neither fires |
| Corrector.RelaxLoop | remove_crosstalk_sensor_1.0.py:19-38 | the loop returns the last result of the cell's run and leaves the working array equal to its input with only cell (i, j) replaced by the committed value |
| Corrector.RelaxCell | remove_crosstalk_sensor_1.0.py:19-38 | processing cell (i, j) writes no other cell of the working array; the cell ends with the value its run commits and the run's last result is returned |
| Corrector.CorrectCell | remove_crosstalk_sensor_1.0.py:19-40 | processing one cell moves the working array one sweep position on and fills that cell of the output with its rounded result, leaving later output cells at 0 |
| Corrector.CorrectRow | remove_crosstalk_sensor_1.0.py:17-40 | processing row i moves the working array to the start of row i + 1 and fills row i of the output |
| Corrector.RemoveCrosstalkIterative | remove_crosstalk_sensor_1.0.py:9-42 | the output is a fresh array of the input's shape whose every cell is the rounded last result of that cell's loop in the row-major sweep, and the input array ends as the swept working grid |

## Left out

- The demonstration at the end of the file (random matrix, noise, printing)
  is not part of this model: it is I/O and random input.
- Values are exact reals, not IEEE-754 doubles: rounding error, overflow,
  underflow, NaN and infinity are not modelled. `decay_rate ** iteration` is
  a power of a real to a natural exponent.
- The regulation factors are class attributes read from a global holder in
  the source; here they are a `Factors` value passed to every operation.
  `Regulation.Defaults` holds the values the holder carries.
- Grids with fewer than two rows or columns are excluded by precondition.
  The source does not check the shape: with one row or one column it
  indexes out of range at line 55, with no rows it fails at line 12, and
  with no columns it returns an empty matrix.
- The input must be a floating-point matrix. With an integer matrix the
  write-back would truncate the refined value; that is not modelled.
- A Python list of lists whose rows share one list object would alias rows.
  The model's `array2` has no such aliasing.
- `np.zeros` and `np.abs` are plain array allocation and the real absolute
  value. The output array holds `round(result)` as a real, as the float
  matrix of the source does.
- Estimator.Sum: it skips a cell outside the grid instead of failing. This
  never happens, because `Estimator.NeighboursAreGeometric` shows the
  neighbour table lists in-grid cells only.
- Estimator.Estimate: it divides by the literal 3 or 4 the source writes.
  `Estimator.EstimateIsMean` shows this is the number of neighbours summed.
