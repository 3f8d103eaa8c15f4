/** The public entry point `entropy_multiscale`: choose the scales and the
    tolerance once, coarse-grain the signal at every scale, run the entropy
    estimator on the result (row by row for a stack), and collapse the
    per-scale profile into the area-under-curve index. */
module EntropyMultiscale {
  import opened Floats
  import opened Aggregation
  import Variants

  /** The output of coarse-graining: one series (`ndim == 1`) or a stack of
      series (`ndim == 2`, the time-shift method). */
  datatype Coarse = Series(values: seq<real>) | Stack(rows: seq<seq<real>>)

  /** The `info` dictionary. */
  datatype Info = Info(dimension: nat, scale: seq<int>, tolerance: real, value: seq<Float>)

  /** The collaborators of the entry point, with `**kwargs` bound into them. */
  datatype Collaborators<!ScalePolicy, !TolerancePolicy> = Collaborators(
    /** `_get_scales(signal, scale=..., dimension=...)` */
    getScales: (seq<real>, ScalePolicy, nat) -> seq<int>,
    /** `complexity_tolerance(signal, method=..., dimension=..., show=False)[0]` */
    tolerance: (seq<real>, TolerancePolicy, nat) -> real,
    /** `complexity_coarsegraining(signal, scale=..., show=False, **kwargs)` */
    coarseGrain: (seq<real>, int) -> Coarse,
    /** `entropy_sample(x, delay=1, dimension=..., tolerance=..., **kwargs)[0]` */
    sampleEntropy: (seq<real>, nat, real) -> Float,
    /** `entropy_approximate(x, delay=1, dimension=..., tolerance=..., **kwargs)[0]` */
    approximateEntropy: (seq<real>, nat, real) -> Float)

  /** The estimator chosen by the `approximate` flag: sample entropy when it
      is false, approximate entropy otherwise. */
  function Algorithm<S, T>(approximate: bool, c: Collaborators<S, T>): (r: (seq<real>, nat, real) -> Float)
    ensures !approximate ==> r == c.sampleEntropy
    ensures approximate ==> r == c.approximateEntropy
  {
    if approximate then c.approximateEntropy else c.sampleEntropy
  }

  /** `_run_algo`: a single series goes straight to the estimator; a stack gives
      one estimate per row, in row order, reduced by the NaN-robust mean. */
  function RunAlgo(coarse: Coarse, algorithm: (seq<real>, nat, real) -> Float, dimension: nat, tolerance: real): (r: Float)
    ensures coarse.Series? ==> r == algorithm(coarse.values, dimension, tolerance)
    ensures coarse.Stack? ==>
      r == ValidMean(MapRows(coarse.rows, y => algorithm(y, dimension, tolerance)))
    ensures coarse.Stack? ==>
      (r.NaN? <==> forall i :: 0 <= i < |coarse.rows| ==> !algorithm(coarse.rows[i], dimension, tolerance).IsFinite())
  {
    match coarse
    case Series(y) => algorithm(y, dimension, tolerance)
    case Stack(rows) => ValidMean(MapRows(rows, y => algorithm(y, dimension, tolerance)))
  }

  /** `entropy_multiscale`. The `composite`, `refined` and `fuzzy` flags are
      accepted and never read; `show` only plots, and is not modelled. */
  function EntropyMultiscale<S, T>(
    signal: seq<real>, scale: S, dimension: nat, tolerance: T,
    approximate: bool, composite: bool, refined: bool, fuzzy: bool,
    c: Collaborators<S, T>): (r: (Float, Info))
    ensures r.1.dimension == dimension
    ensures r.1.scale == c.getScales(signal, scale, dimension)
    ensures r.1.tolerance == c.tolerance(signal, tolerance, dimension)
    ensures |r.1.value| == |r.1.scale|
    ensures forall i :: 0 <= i < |r.1.value| ==>
      r.1.value[i] == RunAlgo(c.coarseGrain(signal, r.1.scale[i]), Algorithm(approximate, c), dimension, r.1.tolerance)
    ensures r.0 == AreaIndex(r.1.value)
  {
    var scales := c.getScales(signal, scale, dimension);
    var tol := c.tolerance(signal, tolerance, dimension);
    var algorithm := Algorithm(approximate, c);
    var values := seq(|scales|, i requires 0 <= i < |scales| => RunAlgo(c.coarseGrain(signal, scales[i]), algorithm, dimension, tol));
    var info := Info(dimension, scales, tol, values);
    (AreaIndex(values), info)
  }

  /** The variant flags make no difference to the entry point. */
  lemma VariantFlagsAreIgnored<S, T>(
    signal: seq<real>, scale: S, dimension: nat, tolerance: T, approximate: bool,
    composite: bool, refined: bool, fuzzy: bool,
    composite': bool, refined': bool, fuzzy': bool, c: Collaborators<S, T>)
    ensures EntropyMultiscale(signal, scale, dimension, tolerance, approximate, composite, refined, fuzzy, c)
         == EntropyMultiscale(signal, scale, dimension, tolerance, approximate, composite', refined', fuzzy', c)
  {
  }

  /** The entry point applies no length floor: a single coarse-grained series of
      any length, even empty, is passed to the estimator and its value kept. */
  lemma NoLengthFloorAtEntry<S, T>(
    signal: seq<real>, scale: S, dimension: nat, tolerance: T, approximate: bool,
    composite: bool, refined: bool, fuzzy: bool, c: Collaborators<S, T>, i: nat)
    requires i < |c.getScales(signal, scale, dimension)|
    requires c.coarseGrain(signal, c.getScales(signal, scale, dimension)[i]).Series?
    ensures var r := EntropyMultiscale(signal, scale, dimension, tolerance, approximate, composite, refined, fuzzy, c);
      r.1.value[i] == Algorithm(approximate, c)(c.coarseGrain(signal, r.1.scale[i]).values, dimension, r.1.tolerance)
  {
  }

  /** A scale whose estimate is not finite does not enter the index: the index
      is the one of the profile without that scale. */
  lemma DegenerateScaleLeavesIndex<S, T>(
    signal: seq<real>, scale: S, dimension: nat, tolerance: T, approximate: bool,
    composite: bool, refined: bool, fuzzy: bool, c: Collaborators<S, T>, i: nat)
    requires var r := EntropyMultiscale(signal, scale, dimension, tolerance, approximate, composite, refined, fuzzy, c);
      i < |r.1.value| && !r.1.value[i].IsFinite()
    ensures var r := EntropyMultiscale(signal, scale, dimension, tolerance, approximate, composite, refined, fuzzy, c);
      r.0 == AreaIndex(r.1.value[..i] + r.1.value[i + 1..])
  {
    var r := EntropyMultiscale(signal, scale, dimension, tolerance, approximate, composite, refined, fuzzy, c);
    var v := r.1.value;
    assert v == v[..i] + [v[i]] + v[i + 1..];
    AreaIndexIgnoresNonFinite(v[..i], v[i], v[i + 1..]);
  }

  /** On a stack, the entry point's composite path and the internal composite
      MSE agree whenever the stack clears the internal length floor and both
      run the same estimator on every row. */
  lemma StackAgreesWithCmse(
    rows: seq<seq<real>>, algorithm: (seq<real>, nat, real) -> Float, dimension: nat, tolerance: real,
    fuzzy: bool, k: Variants.Kernels)
    requires Variants.Size(rows) >= Variants.Pow10(dimension)
    requires forall i :: 0 <= i < |rows| ==>
      algorithm(rows[i], dimension, tolerance) == k.sampleEntropy(rows[i], dimension, tolerance, fuzzy)
    ensures RunAlgo(Stack(rows), algorithm, dimension, tolerance) == Variants.CmseValue(rows, dimension, tolerance, fuzzy, k)
  {
    assert MapRows(rows, y => algorithm(y, dimension, tolerance))
        == Variants.RowEntropies(rows, dimension, tolerance, fuzzy, k);
  }
}
