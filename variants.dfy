/** The internal variant combiner `_entropy_multiscale` and its three
    per-scale methods: plain (MSE), composite (CMSE) and refined composite
    (RCMSE) multiscale entropy. The numerical kernels it calls are
    parameters: their definitions are not part of this model. */
module Variants {
  import opened Floats
  import opened Aggregation

  /** The kernels, with `**kwargs` already bound into them. */
  datatype Kernels = Kernels(
    /** `complexity_coarsegraining(signal, scale=tau)`: one series per scale */
    coarseGrain: (seq<real>, int) -> seq<real>,
    /** `_get_coarsegrained_rolling(signal, tau)`: a stack of series, one per row */
    timeShift: (seq<real>, int) -> seq<seq<real>>,
    /** `entropy_sample(y, delay=1, dimension, tolerance, fuzzy)[0]` */
    sampleEntropy: (seq<real>, nat, real, bool) -> Float,
    /** `_phi(y, delay=1, dimension, tolerance, fuzzy, approximate=False)`:
        the pair of statistics at dimension m and m + 1 */
    phi: (seq<real>, nat, real, bool) -> (Float, Float),
    /** `_phi_divide`: the single divide-then-log step */
    phiDivide: (Float, Float) -> Float)

  datatype Variant = Mse | Cmse | Rcmse

  /** The branch `_entropy_multiscale` takes for each scale: refined wins over
      composite, composite alone is CMSE, and neither is plain MSE. */
  function VariantOf(composite: bool, refined: bool): (r: Variant)
    ensures r == Rcmse <==> refined
    ensures r == Cmse <==> !refined && composite
    ensures r == Mse <==> !refined && !composite
  {
    if !refined && !composite then Mse
    else if !refined && composite then Cmse
    else Rcmse
  }

  /** `10 ** dimension`: the fewest coarse-grained values an estimate needs. */
  function Pow10(n: nat): (r: nat)
    ensures r >= 1
  {
    if n == 0 then 1 else 10 * Pow10(n - 1)
  }

  /** `y.size` of a stack: how many values it holds over all rows. */
  function Size(rows: seq<seq<real>>): nat
  {
    if |rows| == 0 then 0 else |rows[0]| + Size(rows[1..])
  }

  // ---------------------------------------------------------------------
  // Plain MSE
  // ---------------------------------------------------------------------

  /** `_entropy_multiscale_mse`: not-a-number below the length floor, otherwise
      sample entropy of the single coarse-grained series. */
  function MseValue(signal: seq<real>, tau: int, dimension: nat, tolerance: real, fuzzy: bool, k: Kernels): (r: Float)
    ensures |k.coarseGrain(signal, tau)| < Pow10(dimension) ==> r.NaN?
    ensures |k.coarseGrain(signal, tau)| >= Pow10(dimension) ==>
      r == k.sampleEntropy(k.coarseGrain(signal, tau), dimension, tolerance, fuzzy)
  {
    var y := k.coarseGrain(signal, tau);
    if |y| < Pow10(dimension) then NaN
    else k.sampleEntropy(y, dimension, tolerance, fuzzy)
  }

  // ---------------------------------------------------------------------
  // Composite MSE
  // ---------------------------------------------------------------------

  /** Sample entropy of every row of the stack, in row order. */
  function RowEntropies(rows: seq<seq<real>>, dimension: nat, tolerance: real, fuzzy: bool, k: Kernels): seq<Float>
  {
    MapRows(rows, y => k.sampleEntropy(y, dimension, tolerance, fuzzy))
  }

  /** What composite MSE is meant to compute: not-a-number below the floor,
      otherwise the NaN-robust mean of the per-row entropies. */
  function CmseValue(rows: seq<seq<real>>, dimension: nat, tolerance: real, fuzzy: bool, k: Kernels): (r: Float)
    ensures r.NaN? || r.IsFinite()
    ensures r.NaN? <==> Size(rows) < Pow10(dimension) || NoneFinite(RowEntropies(rows, dimension, tolerance, fuzzy, k))
  {
    if Size(rows) < Pow10(dimension) then NaN
    else ValidMean(RowEntropies(rows, dimension, tolerance, fuzzy, k))
  }

  /** How many entries the guard on `mse_y` flags: those equal to +inf, to -inf,
      or to NaN under IEEE `==` (which no entry ever is). A finite entry is never
      flagged, so flagging every entry leaves none finite. */
  function CountFlagged(xs: seq<Float>): (r: nat)
    ensures r + |Finite(xs)| <= |xs|
  {
    if |xs| == 0 then 0
    else
      var x := xs[0];
      (if IeeeEq(x, PosInf) || IeeeEq(x, NegInf) || IeeeEq(x, NaN) then 1 else 0) + CountFlagged(xs[1..])
  }

  /** The `== np.nan` test flags nothing: a stack of all-NaN rows is not caught
      by the guard, and reaches the mean of an empty array instead. */
  lemma {:induction false} CountFlaggedIgnoresNaN(xs: seq<Float>)
    requires forall i :: 0 <= i < |xs| ==> xs[i].NaN?
    ensures CountFlagged(xs) == 0
  {
    if |xs| > 0 {
      CountFlaggedIgnoresNaN(xs[1..]);
    }
  }

  /** `_entropy_multiscale_cmse` as written: fill `mse_y` row by row, return NaN
      if the guard flags every entry, else the mean of the finite entries. */
  method CompositeEntropy(signal: seq<real>, tau: int, dimension: nat, tolerance: real, fuzzy: bool, k: Kernels)
    returns (r: Float)
    ensures r == CmseValue(k.timeShift(signal, tau), dimension, tolerance, fuzzy, k)
  {
    var y := k.timeShift(signal, tau);
    if Size(y) < Pow10(dimension) {
      return NaN;
    }
    var mseY := new Float[|y|](_ => NaN);
    for i := 0 to |y|
      invariant forall j :: 0 <= j < i ==> mseY[j] == k.sampleEntropy(y[j], dimension, tolerance, fuzzy)
    {
      mseY[i] := k.sampleEntropy(y[i], dimension, tolerance, fuzzy);
    }
    var values := mseY[..];
    assert values == RowEntropies(y, dimension, tolerance, fuzzy, k);
    if CountFlagged(values) == |values| {
      return NaN;
    }
    var kept := DropNonFinite(values);
    r := FMean(kept);
  }

  /** When every row has the same finite entropy e, composite MSE is e. */
  lemma CmseOfUniformRows(rows: seq<seq<real>>, dimension: nat, tolerance: real, fuzzy: bool, k: Kernels, e: real)
    requires Size(rows) >= Pow10(dimension)
    requires forall i :: 0 <= i < |rows| ==> k.sampleEntropy(rows[i], dimension, tolerance, fuzzy) == Fin(e)
    ensures CmseValue(rows, dimension, tolerance, fuzzy, k) == Fin(e)
  {
    assert |rows| > 0;
    ValidMeanConstant(RowEntropies(rows, dimension, tolerance, fuzzy, k), e);
  }

  /** A stack that is the single plain coarse-grained series gives the plain MSE
      value, as long as that value is finite (a non-finite one becomes NaN). */
  lemma CmseOfSingleRow(signal: seq<real>, tau: int, dimension: nat, tolerance: real, fuzzy: bool, k: Kernels)
    requires k.timeShift(signal, tau) == [k.coarseGrain(signal, tau)]
    ensures var e := MseValue(signal, tau, dimension, tolerance, fuzzy, k);
      CmseValue(k.timeShift(signal, tau), dimension, tolerance, fuzzy, k) == (if e.IsFinite() then e else NaN)
  {
    var rows := k.timeShift(signal, tau);
    assert Size(rows) == |rows[0]| + Size(rows[1..]);
    var e := MseValue(signal, tau, dimension, tolerance, fuzzy, k);
    if Size(rows) >= Pow10(dimension) && e.IsFinite() {
      ValidMeanConstant(RowEntropies(rows, dimension, tolerance, fuzzy, k), e.v);
    }
  }

  // ---------------------------------------------------------------------
  // Refined composite MSE
  // ---------------------------------------------------------------------

  /** The phi pair of every row, in row order. */
  function RowPhis(rows: seq<seq<real>>, dimension: nat, tolerance: real, fuzzy: bool, k: Kernels): (r: seq<(Float, Float)>)
    ensures |r| == |rows|
    ensures forall i :: 0 <= i < |rows| ==> r[i] == k.phi(rows[i], dimension, tolerance, fuzzy)
  {
    seq(|rows|, i requires 0 <= i < |rows| => k.phi(rows[i], dimension, tolerance, fuzzy))
  }

  /** `phi_[:, 0]` */
  function FirstColumn(pairs: seq<(Float, Float)>): (r: seq<Float>)
    ensures |r| == |pairs|
    ensures forall i :: 0 <= i < |pairs| ==> r[i] == pairs[i].0
  {
    seq(|pairs|, i requires 0 <= i < |pairs| => pairs[i].0)
  }

  /** `phi_[:, 1]` */
  function SecondColumn(pairs: seq<(Float, Float)>): (r: seq<Float>)
    ensures |r| == |pairs|
    ensures forall i :: 0 <= i < |pairs| ==> r[i] == pairs[i].1
  {
    seq(|pairs|, i requires 0 <= i < |pairs| => pairs[i].1)
  }

  /** What refined composite MSE computes: not-a-number below the floor,
      otherwise one divide-and-log step on the column means of the phi pairs. */
  function RcmseValue(rows: seq<seq<real>>, dimension: nat, tolerance: real, fuzzy: bool, k: Kernels): (r: Float)
    ensures Size(rows) < Pow10(dimension) ==> r.NaN?
  {
    if Size(rows) < Pow10(dimension) then NaN
    else
      var phis := RowPhis(rows, dimension, tolerance, fuzzy, k);
      k.phiDivide(FMean(FirstColumn(phis)), FMean(SecondColumn(phis)))
  }

  /** Unlike composite MSE, the refined variant does not skip degenerate rows:
      one row whose first phi statistic is not finite makes the first column
      mean handed to `_phi_divide` non-finite too. */
  lemma RcmseIsNotRobust(rows: seq<seq<real>>, dimension: nat, tolerance: real, fuzzy: bool, k: Kernels, i: nat)
    requires i < |rows|
    requires !k.phi(rows[i], dimension, tolerance, fuzzy).0.IsFinite()
    ensures !FMean(FirstColumn(RowPhis(rows, dimension, tolerance, fuzzy, k))).IsFinite()
  {
    assert !FirstColumn(RowPhis(rows, dimension, tolerance, fuzzy, k))[i].IsFinite();
  }

  /** `_entropy_multiscale_rcmse`: fill the `phi_` matrix row by row, average each
      column, then divide once. */
  method RefinedCompositeEntropy(signal: seq<real>, tau: int, dimension: nat, tolerance: real, fuzzy: bool, k: Kernels)
    returns (r: Float)
    ensures r == RcmseValue(k.timeShift(signal, tau), dimension, tolerance, fuzzy, k)
  {
    var y := k.timeShift(signal, tau);
    if Size(y) < Pow10(dimension) {
      return NaN;
    }
    var phiRows := new (Float, Float)[|y|](_ => (NaN, NaN));
    for i := 0 to |y|
      invariant forall j :: 0 <= j < i ==> phiRows[j] == k.phi(y[j], dimension, tolerance, fuzzy)
    {
      phiRows[i] := k.phi(y[i], dimension, tolerance, fuzzy);
    }
    var phis := phiRows[..];
    assert phis == RowPhis(y, dimension, tolerance, fuzzy, k);
    r := k.phiDivide(FMean(FirstColumn(phis)), FMean(SecondColumn(phis)));
  }

  /** When every row has the same phi pair, refined composite MSE is that pair
      divided once, whatever the class of its components. */
  lemma RcmseOfUniformRows(rows: seq<seq<real>>, dimension: nat, tolerance: real, fuzzy: bool, k: Kernels, p: (Float, Float))
    requires Size(rows) >= Pow10(dimension)
    requires forall i :: 0 <= i < |rows| ==> k.phi(rows[i], dimension, tolerance, fuzzy) == p
    ensures RcmseValue(rows, dimension, tolerance, fuzzy, k) == k.phiDivide(p.0, p.1)
  {
    assert |rows| > 0;
    var phis := RowPhis(rows, dimension, tolerance, fuzzy, k);
    FMeanConstant(FirstColumn(phis), p.0);
    FMeanConstant(SecondColumn(phis), p.1);
  }

  /** Identical rows with finite entropy make the composite and refined
      composite values agree, provided a row's sample entropy is its phi pair
      divided once. */
  lemma CompositeVariantsAgreeOnUniformRows(
    rows: seq<seq<real>>, dimension: nat, tolerance: real, fuzzy: bool, k: Kernels, row: seq<real>)
    requires Size(rows) >= Pow10(dimension)
    requires forall i :: 0 <= i < |rows| ==> rows[i] == row
    requires k.sampleEntropy(row, dimension, tolerance, fuzzy).IsFinite()
    requires k.sampleEntropy(row, dimension, tolerance, fuzzy)
          == k.phiDivide(k.phi(row, dimension, tolerance, fuzzy).0, k.phi(row, dimension, tolerance, fuzzy).1)
    ensures CmseValue(rows, dimension, tolerance, fuzzy, k) == RcmseValue(rows, dimension, tolerance, fuzzy, k)
  {
    var e := k.sampleEntropy(row, dimension, tolerance, fuzzy);
    CmseOfUniformRows(rows, dimension, tolerance, fuzzy, k, e.v);
    RcmseOfUniformRows(rows, dimension, tolerance, fuzzy, k, k.phi(row, dimension, tolerance, fuzzy));
  }

  /** When that shared entropy is not finite the two variants part: composite
      MSE drops every row and gives NaN, while refined composite MSE returns the
      non-finite value itself. */
  lemma CompositeVariantsDivergeOnNonFiniteRows(
    rows: seq<seq<real>>, dimension: nat, tolerance: real, fuzzy: bool, k: Kernels, row: seq<real>)
    requires Size(rows) >= Pow10(dimension)
    requires forall i :: 0 <= i < |rows| ==> rows[i] == row
    requires !k.sampleEntropy(row, dimension, tolerance, fuzzy).IsFinite()
    requires k.sampleEntropy(row, dimension, tolerance, fuzzy)
          == k.phiDivide(k.phi(row, dimension, tolerance, fuzzy).0, k.phi(row, dimension, tolerance, fuzzy).1)
    ensures CmseValue(rows, dimension, tolerance, fuzzy, k).NaN?
    ensures RcmseValue(rows, dimension, tolerance, fuzzy, k) == k.sampleEntropy(row, dimension, tolerance, fuzzy)
  {
    assert |rows| > 0;
    assert NoneFinite(RowEntropies(rows, dimension, tolerance, fuzzy, k));
    RcmseOfUniformRows(rows, dimension, tolerance, fuzzy, k, k.phi(row, dimension, tolerance, fuzzy));
  }

  // ---------------------------------------------------------------------
  // The combiner
  // ---------------------------------------------------------------------

  /** The value one scale contributes under a given variant. */
  function ScaleValue(variant: Variant, signal: seq<real>, tau: int, dimension: nat, tolerance: real, fuzzy: bool, k: Kernels): Float
  {
    match variant
    case Mse => MseValue(signal, tau, dimension, tolerance, fuzzy, k)
    case Cmse => CmseValue(k.timeShift(signal, tau), dimension, tolerance, fuzzy, k)
    case Rcmse => RcmseValue(k.timeShift(signal, tau), dimension, tolerance, fuzzy, k)
  }

  /** `_entropy_multiscale`: a NaN-filled vector with one slot per scale factor,
      each slot written with its own scale's value under the chosen variant; then
      the area-under-curve index over the finite slots. */
  method MultiscaleEntropy(
    signal: seq<real>, tolerance: real, scaleFactors: seq<int>, dimension: nat,
    composite: bool, fuzzy: bool, refined: bool, k: Kernels)
    returns (index: Float, values: seq<Float>)
    ensures |values| == |scaleFactors|
    ensures forall i :: 0 <= i < |scaleFactors| ==>
      values[i] == ScaleValue(VariantOf(composite, refined), signal, scaleFactors[i], dimension, tolerance, fuzzy, k)
    ensures index == AreaIndex(values)
  {
    var mseVals := new Float[|scaleFactors|](_ => NaN);
    for i := 0 to |scaleFactors|
      invariant forall j :: 0 <= j < i ==>
        mseVals[j] == ScaleValue(VariantOf(composite, refined), signal, scaleFactors[j], dimension, tolerance, fuzzy, k)
    {
      var tau := scaleFactors[i];
      if !refined && !composite {
        mseVals[i] := MseValue(signal, tau, dimension, tolerance, fuzzy, k);
      } else if !refined && composite {
        var v := CompositeEntropy(signal, tau, dimension, tolerance, fuzzy, k);
        mseVals[i] := v;
      } else {
        var v := RefinedCompositeEntropy(signal, tau, dimension, tolerance, fuzzy, k);
        mseVals[i] := v;
      }
    }
    values := mseVals[..];
    var kept := DropInfinite(DropNaN(values));
    DropNaNThenInfinite(values);
    index := TrapzPerPoint(Finite(kept));
  }

  /** A scale whose coarse-grained series is below the floor is NaN under plain
      MSE, and so the index is taken over fewer values than there are scales. */
  lemma ShortScaleIsExcluded(
    signal: seq<real>, scaleFactors: seq<int>, dimension: nat, tolerance: real, fuzzy: bool, k: Kernels,
    values: seq<Float>, i: nat)
    requires |values| == |scaleFactors| && i < |scaleFactors|
    requires forall j :: 0 <= j < |scaleFactors| ==>
      values[j] == ScaleValue(Mse, signal, scaleFactors[j], dimension, tolerance, fuzzy, k)
    requires |k.coarseGrain(signal, scaleFactors[i])| < Pow10(dimension)
    ensures values[i].NaN?
    ensures |Finite(values)| < |values|
  {
    assert !AllFinite(values);
  }
}
