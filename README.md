# Forced-sequence Lyapunov lattice

A Dafny model of the lattice computation in `lyapunov.py` of PythonFractals.
For a forced string over the symbols 'A' and 'B' (e.g. `"AAABA"`), the function
`lyapunov` does the following:

- It builds a coordinate grid of `nx = width*dpi` points over `xbound` and
  `ny = height*dpi` points over `ybound`.
- For every cell `(i, j)` of an `nx` by `ny` lattice, it restarts the logistic
  map `x := (rn*x)*(1 - x)` from `x = 0.5`. The drive `rn` is chosen at step `n`
  by the symbol `string[n mod len(string)]`: 'A' selects `xvals[j]` and any
  other symbol selects `xvals[i]`.
- Over `maxiter` steps it adds up `log|rn*(1 - 2x)|`, taking `x` after that
  step's update.
- It stores that sum in the cell, optionally transposes the lattice, and returns
  the lattice together with the unchanged `width`, `height` and `dpi`.

The model has two modules:

- `LyapunovSpec` (`lyapunov_spec.dfy`) holds the pure definitions: the grid, the
  symbol schedule, the drive, the logistic step, the orbit and the per-cell sum
  of terms. Beside them are lemmas about these definitions:
  - the grid starts at the lower bound, strictly increases and stays below the
    upper bound;
  - the schedule is periodic, and repeating the string changes nothing;
  - the orbit stays in `[0, 1]` while the drives lie in `[0, 4]`;
  - a cell is determined by its drive sequence alone, and from this follow:
    constant columns for an all-'A' string, constant rows for a string
    without 'A', and a diagonal that ignores the string.
- `Lyapunov` (`lyapunov.dfy`) holds the imperative code. Its methods run the
  source's loops over an `array2<real>`: the per-cell loop, the row loop, the
  lattice fill over a zero-initialised array, and the transpose. A top-level
  method `Lyapunov` returns either the lattice result or the exception the
  source raises. Each method is proved against the definitions in
  `LyapunovSpec`.

Arithmetic is over `real`. The logarithm is a parameter `log: real -> real` of
every member that needs it, and nothing is assumed about it.

The code departs from the usual forced-Lyapunov recipe in four ways, and the model follows the code:

- There is no warm-up phase. Accumulation starts at the first step.
- The stored value is the raw sum. `lamd /= maxiter` runs after the store, so
  the mean never reaches the lattice.
- Both drives come from `xvals`. `yvals` only fixes the number of columns, so
  `ybound` has no influence on the values.
- There is no clamping of a zero log argument.

Error paths follow Python's semantics for the same code (`Lyapunov.Failure`):

- a negative `width*dpi` or `height*dpi` makes `np.zeros` fail;
- once there is a cell, an empty string with `maxiter > 0` is a modulo by
  zero;
- once there is a cell, `maxiter == 0` is a division by zero at the line
  `lamd /= maxiter`;
- `ny > nx > 0` reads `xvals` out of range.

A negative `maxiter` runs no steps and gives an all-zero lattice.

## Model

| member | source | states |
|---|---|---|
| `LyapunovSpec.Grid` | lyapunov.py:21-22 | the grid over `range(n)` has exactly `n` points, none when `n <= 0` |
| `LyapunovSpec.GridStartsAtLo` | lyapunov.py:21 | the first point is the lower bound (left endpoint included) |
| `LyapunovSpec.GridStep` | lyapunov.py:21 | neighbouring points are exactly one step `(hi - lo)/n` apart |
| `LyapunovSpec.GridIncreasing` | lyapunov.py:21-22 | for `lo < hi` the points strictly increase |
| `LyapunovSpec.GridWithinBounds` | lyapunov.py:18-22 | for `lo < hi` every point lies in `[lo, hi)`: the right endpoint is excluded, and the last point is one step short of it |
| `LyapunovSpec.SymbolAt` | lyapunov.py:38 | the symbol read at step `n` is a symbol of the forced string |
| `LyapunovSpec.SymbolAtFirstPass` | lyapunov.py:38 | during the first pass over the string, step `n` reads `string[n]` |
| `LyapunovSpec.SymbolAtPeriodic` | lyapunov.py:36-43 | the schedule repeats with period `len(string)` |
| `LyapunovSpec.SymbolAtCycles` | lyapunov.py:36-43 | adding any whole number of periods leaves the symbol unchanged |
| `LyapunovSpec.SymbolAtRepeat` | lyapunov.py:38 | a string repeated `k` times yields the same schedule as the string |
| `LyapunovSpec.CellReadsOnlyItsDrives` | lyapunov.py:33-42 | cell `(i, j)` reads the grid only at `xvals[i]` and `xvals[j]`: two grids that agree at those two indices give the cell the same value |
| `LyapunovSpec.LogisticMapsUnitInterval` | lyapunov.py:45 | one logistic step `(rn*x)*(1 - x)` maps `[0, 1]` into `[0, 1]` when the drive lies in `[0, 4]` |
| `LyapunovSpec.Orbit` | lyapunov.py:29-45 | the cell state starts at 0.5 and stays in `[0, 1]` whenever both drives lie in `[0, 4]` |
| `LyapunovSpec.Terms` | lyapunov.py:36-46 | the first `n` accumulated terms are in order, term `k` being `log|rn*(1 - 2x)|` with `x` after step `k` |
| `LyapunovSpec.CellValue` | lyapunov.py:29-48 | the stored cell value is the raw sum of the terms, and it is 0 when no step runs |
| `LyapunovSpec.OrbitDeterminedByDrives` | lyapunov.py:29-45 | two cells with equal drive sequences have equal orbits |
| `LyapunovSpec.TermDeterminedByDrives` | lyapunov.py:46 | two cells with equal drive sequences add equal terms |
| `LyapunovSpec.SumDeterminedByDrives` | lyapunov.py:29-46 | two cells with equal drive sequences have equal sums, so a cell reads nothing but its own drives |
| `LyapunovSpec.ColumnsConstantWhenAllA` | lyapunov.py:33-48 | with a string of only 'A's, every cell of column `j` has the same value |
| `LyapunovSpec.RowsConstantWithoutA` | lyapunov.py:33-48 | with a string containing no 'A', every cell of row `i` has the same value |
| `LyapunovSpec.DiagonalIgnoresString` | lyapunov.py:33-48 | on the diagonal `i == j` the cell value does not depend on the forced string |
| `LyapunovSpec.RepeatedStringSameCell` | lyapunov.py:36-48 | repeating the forced string `k` times leaves every cell value unchanged |
| `Lyapunov.Failure` | lyapunov.py:24-49 | a configuration succeeds exactly when both dimensions are non-negative and, if any cell exists, `ny <= nx` and `maxiter` is negative, or positive with a non-empty string. Each error holds exactly when it is the first one raised. A negative dimension fails at `np.zeros`. Otherwise, with at least one cell, an empty string with `maxiter > 0` fails at the modulo, and `maxiter == 0` fails at the division. Out-of-range indexing is reported only when neither of those applies. |
| `Lyapunov.ComputeCell` | lyapunov.py:29-46 | the per-cell loop, with `count == n` throughout, runs `range(maxiter)` (exactly `maxiter` steps, none when `maxiter <= 0`) from `x = 0.5` and returns the sum of those steps' terms, 0 when no step runs |
| `Lyapunov.FillRow` | lyapunov.py:27-49 | each zero cell of row `i` receives its own cell value once, and every other row is left unchanged |
| `Lyapunov.FillLattice` | lyapunov.py:24-49 | a newly allocated, zero-initialised `nx` by `ny` lattice ends with every cell `(i, j)` holding its cell value |
| `Lyapunov.Transpose` | lyapunov.py:51-52 | the transpose is a newly allocated array of shape `ny` by `nx`, with `result[j, i] == lattice[i, j]` |
| `Lyapunov.Lyapunov` | lyapunov.py:8-54 | takes the source's defaults (`maxiter = 100`, `width = height = 3`, `dpi = 100`, no transpose). The result is an error exactly when `Failure` names one. Otherwise: the lattice is newly allocated; `width`, `height` and `dpi` are returned unchanged; the shape is `nx` by `ny`, or `ny` by `nx` when transposed; and every cell holds the raw sum driven by the `xbound` grid |

## Left out

- Numba compilation and `prange` parallelism (lyapunov.py:2, 7, 26-27) are
  modelled as sequential loops. Cells are disjoint, and each cell's value
  depends only on its own inputs, so the loop order does not matter.
- IEEE-754 floating point is not modelled: no rounding, and no `-inf` or NaN
  when `rn*(1 - 2x) == 0` reaches `np.log`. Arithmetic is over `real`, and the
  logarithm is an arbitrary function parameter, so nothing is claimed about
  exponent values or their sign.
- Indexing follows Python's checked semantics. Numba does not check bounds by
  default, so under numba an out-of-range `xvals[j]` reads memory instead of
  raising.
- `Lyapunov.Lyapunov` decides its errors before computing any cell. The source
  raises in the middle of the loops. A partly filled lattice cannot be seen
  after an exception, so the outcomes agree.
- `Lyapunov.Transpose` returns a new array. `lattice.T` in numpy is a view that
  shares storage with the original, and that aliasing is not captured.
- Non-integer `width`, `height` or `dpi`, and a forced string that is not a
  Python `str`, are outside the model. All of them are typed as integers and
  `string`.
- The `__main__` demo (lyapunov.py:56-68) builds a colormap and plots. It is
  not modelled.
- Rendering, colormaps, shading, animation and pickle persistence are not part
  of this model (image_creation.py).
- The example orchestration is not part of this model (examples.py). Neither
  are the escape-time, Buddhabrot and random-walk engines it imports.
