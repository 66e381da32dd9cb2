/** The lattice computation of `lyapunov.py`: nested loops over the cells
    of a zero-initialised `nx` by `ny` array, a per-cell loop that runs the
    forced logistic recurrence, an optional transpose, and the returned
    lattice result with its sizing metadata. */
module Lyapunov {
  import opened LyapunovSpec

  /** The exceptions the Python function can raise. */
  datatype Error =
    | NegativeDimension  // np.zeros with a negative shape
    | ModuloByZero       // count % L with an empty forced string
    | DivisionByZero     // lamd /= maxiter with maxiter == 0
    | IndexOutOfRange    // xvals[j] with j >= nx

  datatype Option<T> = None | Some(value: T)

  datatype Result<T> = Ok(value: T) | Err(error: Error)

  /** The lattice result: the buffer plus the sizing metadata, passed
      through unchanged. */
  datatype LatticeResult = LatticeResult(lattice: array2<real>, width: int, height: int, dpi: int)

  /** The first exception the computation raises for a string of length
      `L`, or `None`. Dimensions are checked by `np.zeros` before any cell
      runs; the zero divisions happen in the very first cell, before the
      first out-of-range column `j == nx` is reached. The configurations
      that succeed are exactly those with non-negative dimensions where,
      if there is any cell at all, every column index is a valid index of
      `xvals` and `maxiter` neither divides by zero nor reads from an
      empty string. */
  function Failure(L: nat, maxiter: int, nx: int, ny: int): (e: Option<Error>)
    ensures e.None? <==>
      nx >= 0 && ny >= 0 &&
      (nx == 0 || ny == 0 || (ny <= nx && (maxiter < 0 || (maxiter > 0 && L > 0))))
    ensures e == Some(NegativeDimension) <==> nx < 0 || ny < 0
    ensures e == Some(ModuloByZero) <==> nx > 0 && ny > 0 && maxiter > 0 && L == 0
    ensures e == Some(DivisionByZero) <==> nx > 0 && ny > 0 && maxiter == 0
    ensures e == Some(IndexOutOfRange) <==> 0 < nx < ny && (maxiter < 0 || (maxiter > 0 && L > 0))
  {
    if nx < 0 || ny < 0 then Some(NegativeDimension)
    else if nx == 0 || ny == 0 then None
    else if maxiter > 0 && L == 0 then Some(ModuloByZero)
    else if maxiter == 0 then Some(DivisionByZero)
    else if ny > nx then Some(IndexOutOfRange)
    else None
  }

  /** The inner loop of one cell: restart from `x = 0.5`, `count = 0`,
      `lamd = 0` and accumulate `log|rn*(1 - 2x)|` over `maxiter` steps,
      with `rn` chosen by the symbol `s[count % L]`. */
  method ComputeCell(s: string, xv: real, yv: real, maxiter: int, log: real -> real) returns (lamd: real)
    requires maxiter <= 0 || |s| > 0
    ensures lamd == SumOf(Terms(s, xv, yv, Steps(maxiter), log))
    ensures maxiter <= 0 ==> lamd == 0.0
  {
    var L := |s|;
    var count := 0;
    var x := 0.5;
    lamd := 0.0;
    var n := 0;
    while n < maxiter
      invariant 0 <= n <= Steps(maxiter)
      invariant count == n
      invariant x == Orbit(s, xv, yv, n)
      invariant lamd == SumOf(Terms(s, xv, yv, n, log))
    {
      var S := s[count % L];
      var rn;
      if S == 'A' {
        rn := xv;
      } else {
        rn := yv;
      }
      assert S == SymbolAt(s, n);
      assert rn == Drive(s, xv, yv, n);
      count := count + 1;
      x := Logistic(rn, x);
      lamd := lamd + LogDerivative(rn, x, log);
      n := n + 1;
    }
  }

  /** The inner loop over `j` for row `i`: each cell `(i, j)` of the row,
      still 0, receives `lamd` once, driven by `xvals[j]` on 'A' and by
      `xvals[i]` otherwise. The division of `lamd` by `maxiter` happens
      after the store and never reaches the array. Other rows are left
      as they were. */
  method FillRow(lattice: array2<real>, s: string, xvals: seq<real>, i: nat, maxiter: int, log: real -> real)
    requires i < lattice.Length0 == |xvals| && lattice.Length1 <= |xvals|
    requires lattice.Length1 == 0 || maxiter < 0 || (maxiter > 0 && |s| > 0)
    requires forall q :: 0 <= q < lattice.Length1 ==> lattice[i, q] == 0.0
    modifies lattice
    ensures forall q :: 0 <= q < lattice.Length1 ==> lattice[i, q] == CellValue(s, xvals, i, q, maxiter, log)
    ensures forall p, q :: 0 <= p < lattice.Length0 && p != i && 0 <= q < lattice.Length1 ==>
      lattice[p, q] == old(lattice[p, q])
  {
    var j := 0;
    while j < lattice.Length1
      invariant 0 <= j <= lattice.Length1
      invariant forall q :: 0 <= q < j ==> lattice[i, q] == CellValue(s, xvals, i, q, maxiter, log)
      invariant forall q :: j <= q < lattice.Length1 ==> lattice[i, q] == 0.0
      invariant forall p, q :: 0 <= p < lattice.Length0 && p != i && 0 <= q < lattice.Length1 ==>
        lattice[p, q] == old(lattice[p, q])
    {
      var xv := xvals[j];
      var yv := xvals[i];
      var lamd := ComputeCell(s, xv, yv, maxiter, log);
      lattice[i, j] := lattice[i, j] + lamd;
      lamd := lamd / (maxiter as real);
      j := j + 1;
    }
  }

  /** The two nested loops: every cell `(i, j)` of a zero-initialised
      `|xvals|` by `|yvals|` array is written once, with the value of its
      own cell computation; `yvals` only supplies the column count. */
  method FillLattice(s: string, xvals: seq<real>, yvals: seq<real>, maxiter: int, log: real -> real)
    returns (lattice: array2<real>)
    requires |xvals| == 0 || |yvals| <= |xvals|
    requires |xvals| == 0 || |yvals| == 0 || maxiter < 0 || (maxiter > 0 && |s| > 0)
    ensures fresh(lattice)
    ensures lattice.Length0 == |xvals| && lattice.Length1 == |yvals|
    ensures forall i, j :: 0 <= i < |xvals| && 0 <= j < |yvals| ==>
      lattice[i, j] == CellValue(s, xvals, i, j, maxiter, log)
  {
    lattice := new real[|xvals|, |yvals|]((_, _) => 0.0);
    var i := 0;
    while i < |xvals|
      invariant 0 <= i <= |xvals|
      invariant forall p, q :: 0 <= p < i && 0 <= q < |yvals| ==>
        lattice[p, q] == CellValue(s, xvals, p, q, maxiter, log)
      invariant forall p, q :: i <= p < |xvals| && 0 <= q < |yvals| ==> lattice[p, q] == 0.0
    {
      FillRow(lattice, s, xvals, i, maxiter, log);
      i := i + 1;
    }
  }

  /** `lattice.T`: the array with its two axes exchanged. */
  method Transpose(a: array2<real>) returns (t: array2<real>)
    ensures fresh(t)
    ensures t.Length0 == a.Length1 && t.Length1 == a.Length0
    ensures forall i, j :: 0 <= i < a.Length0 && 0 <= j < a.Length1 ==> t[j, i] == a[i, j]
  {
    t := new real[a.Length1, a.Length0]((j, i) reads a => if 0 <= i < a.Length0 && 0 <= j < a.Length1 then a[i, j] else 0.0);
  }

  /** The whole computation: the grids over `xbound` and `ybound` with
      `nx = width*dpi` and `ny = height*dpi` points, the lattice fill, the
      optional transpose, and the result with `width`, `height` and `dpi`
      passed through. Each exception of the source is an `Err`. The
      defaults are the source's; the logarithm is passed by name. */
  method Lyapunov(s: string, xbound: (real, real), ybound: (real, real), maxiter: int := 100,
                  width: int := 3, height: int := 3, dpi: int := 100, transpose: bool := false,
                  nameonly log: real -> real)
    returns (r: Result<LatticeResult>)
    ensures r.Ok? ==> fresh(r.value.lattice)
    ensures r.Err? <==> Failure(|s|, maxiter, width * dpi, height * dpi).Some?
    ensures r.Err? ==> r.error == Failure(|s|, maxiter, width * dpi, height * dpi).value
    ensures r.Ok? ==> r.value.width == width && r.value.height == height && r.value.dpi == dpi
    ensures r.Ok? && !transpose ==>
      r.value.lattice.Length0 == width * dpi && r.value.lattice.Length1 == height * dpi
    ensures r.Ok? && transpose ==>
      r.value.lattice.Length0 == height * dpi && r.value.lattice.Length1 == width * dpi
    ensures r.Ok? && !transpose ==>
      forall i, j :: 0 <= i < width * dpi && 0 <= j < height * dpi ==>
        r.value.lattice[i, j] == CellValue(s, Grid(xbound.0, xbound.1, width * dpi), i, j, maxiter, log)
    ensures r.Ok? && transpose ==>
      forall i, j :: 0 <= i < width * dpi && 0 <= j < height * dpi ==>
        r.value.lattice[j, i] == CellValue(s, Grid(xbound.0, xbound.1, width * dpi), i, j, maxiter, log)
  {
    var L := |s|;
    var (xmin, xmax) := xbound;
    var (ymin, ymax) := ybound;
    var nx := width * dpi;
    var ny := height * dpi;
    var xvals := Grid(xmin, xmax, nx);
    var yvals := Grid(ymin, ymax, ny);
    var failure := Failure(L, maxiter, nx, ny);
    if failure.Some? {
      return Err(failure.value);
    }
    var lattice := FillLattice(s, xvals, yvals, maxiter, log);
    if transpose {
      lattice := Transpose(lattice);
    }
    r := Ok(LatticeResult(lattice, width, height, dpi));
  }
}
