# Multiscale entropy: the combination logic, in Dafny

This project models how NeuroKit's multiscale entropy (MSE) turns per-scale
entropy estimates into a profile and one index. It covers the public
`entropy_multiscale` and the internal `_entropy_multiscale` with its three
variants: plain MSE, composite MSE (CMSE) and refined composite MSE (RCMSE).
Both compute their index as the trapezoidal area over the finite per-scale
values, divided by how many there are.

The numerical building blocks are parameters of the model, with any
`**kwargs` bound into them:

- coarse-graining (`complexity_coarsegraining`, `_get_coarsegrained_rolling`);
- the estimators (`entropy_sample`, `entropy_approximate`);
- the phi statistic (`_phi`, `_phi_divide`);
- tolerance and scale selection (`complexity_tolerance`, `_get_scales`).

They are fields of `EntropyMultiscale.Collaborators` and `Variants.Kernels`.
Their definitions are not part of this model.

A double is `Floats.Float = Fin(real) | NaN | PosInf | NegInf`. A finite
double is an exact real. The model keeps IEEE's rules for the class of a sum
or a mean (`FAdd`, `FSum`, `FMean`) and for `==`: NaN equals nothing
(`IeeeEq`). A 1-D coarse-grained series is a `seq<real>` and a 2-D stack is
a `seq<seq<real>>`. The stack's `y.size` is the sum of its row lengths
(`Variants.Size`).

Files:

- `floats.dfy` (module `Floats`): the double model, sums, means, and the
  finite part `x[np.isfinite(x)]`.
- `aggregation.dfy` (module `Aggregation`): `_validmean`, `np.trapz`, the
  area-under-curve index and the NaN/infinity filters.
- `variants.dfy` (module `Variants`): `_entropy_multiscale` and the three
  per-scale methods. The loops that fill `mse_vals`, `mse_y` and `phi_` are
  methods over arrays, proved against specification functions.
- `multiscale.dfy` (module `EntropyMultiscale`): `entropy_multiscale` and
  `_run_algo`. These are comprehensions, so they are modelled as functions.

The model follows the code where it departs from what the flag names and comments suggest:

- `entropy_multiscale` takes `composite`, `refined` and `fuzzy` but never
  reads them. Which variant runs depends only on whether coarse-graining
  returns a series or a stack (`VariantFlagsAreIgnored`, `RunAlgo`).
- `entropy_multiscale` applies no `10 ** dimension` length floor. Only the
  internal variants do (`NoLengthFloorAtEntry`).
- The "all rows non-finite" guard of CMSE compares with `== np.nan`, which is
  never true. An all-NaN stack still gives NaN, because the mean of the
  empty filtered array is NaN. So the method as written equals the intended
  NaN-robust mean (`CompositeEntropy`, `CountFlaggedIgnoresNaN`).
- A one-row stack gives the plain MSE value only when that value is finite.
  An infinite plain value becomes NaN under CMSE (`CmseOfSingleRow`).
- Identical rows give the same result under CMSE and RCMSE only when the row
  entropy is finite. When it is infinite, CMSE drops every row and returns
  NaN, while RCMSE returns the infinite value
  (`CompositeVariantsAgreeOnUniformRows`, `CompositeVariantsDivergeOnNonFiniteRows`).
- The comments "Remove inf, nan and 0" describe a filter that also drops
  zeros. The code keeps a finite zero like any other finite value, so a zero
  scale value lowers the index where a NaN would not (`ZeroIsKept`,
  `ZeroChangesIndex`).

## Model

| member | source | states |
|---|---|---|
| `Aggregation.ValidMean` | neurokit2/complexity/entropy_multiscale.py:213-218 | NaN exactly when no entry is finite; never infinite; otherwise between the smallest and the largest finite entry |
| `Aggregation.ValidMeanIgnoresNonFinite` | neurokit2/complexity/entropy_multiscale.py:213-218 | inserting a non-finite entry anywhere does not change the robust mean |
| `Aggregation.ValidMeanConstant` | neurokit2/complexity/entropy_multiscale.py:213-218 | rows that all give the same finite value c average to exactly c |
| `Floats.MeanBetweenExtremes` | neurokit2/complexity/entropy_multiscale.py:218 | the arithmetic mean lies between the minimum and the maximum |
| `Floats.Finite` | neurokit2/complexity/entropy_multiscale.py:214 | the kept values are never more than the entries; all are kept exactly when all are finite; none exactly when none is finite |
| `Floats.FiniteSkipsNonFinite` | neurokit2/complexity/entropy_multiscale.py:214 | removing a non-finite entry leaves the finite part unchanged |
| `Floats.FSum` | neurokit2/complexity/entropy_multiscale.py:378 | an IEEE sum is finite exactly when every term is, and then it equals the exact sum of the values |
| `Floats.FMean` | neurokit2/complexity/entropy_multiscale.py:400 | `np.mean` is NaN on an empty array; it is finite exactly when the array is non-empty and all finite, and then it is the exact mean |
| `Floats.FMeanConstant` | neurokit2/complexity/entropy_multiscale.py:400 | the mean of n >= 1 copies of a double is that double, whatever its class |
| `Floats.NaNEqualsNothing` | neurokit2/complexity/entropy_multiscale.py:371 | `x == np.nan` is false for every x |
| `Aggregation.MapRows` | neurokit2/complexity/entropy_multiscale.py:234-244 | one estimate per row, in row order |
| `Aggregation.Trapz` | neurokit2/complexity/entropy_multiscale.py:271 | `np.trapz` with unit spacing: on a non-empty profile, the sum minus half of each end point |
| `Aggregation.TrapzBounds` | neurokit2/complexity/entropy_multiscale.py:271 | over n values in [lo, hi] the area lies in [(n-1)lo, (n-1)hi] |
| `Aggregation.TrapzPerPoint` | neurokit2/complexity/entropy_multiscale.py:271 | area over count is NaN (0/0) exactly when there are no values, otherwise finite |
| `Aggregation.TrapzPerPointBounds` | neurokit2/complexity/entropy_multiscale.py:271 | n times the area per point lies in [(n-1)lo, (n-1)hi] |
| `Aggregation.TrapzPerPointOfConstant` | neurokit2/complexity/entropy_multiscale.py:271 | n equal values c give c(n-1)/n |
| `Aggregation.AreaIndex` | neurokit2/complexity/entropy_multiscale.py:266-271 | the index is NaN exactly when no per-scale value is finite, and never infinite |
| `Aggregation.AreaIndexIgnoresNonFinite` | neurokit2/complexity/entropy_multiscale.py:266-271 | a non-finite per-scale value never contributes to the index |
| `Aggregation.ZeroIsKept` | neurokit2/complexity/entropy_multiscale.py:266 | a finite zero stays in the finite part, in its place, unlike a non-finite value |
| `Aggregation.ZeroChangesIndex` | neurokit2/complexity/entropy_multiscale.py:266-271 | the profile (0, 2) has index 0.5 while (NaN, 2) has index 0 |
| `Aggregation.AreaIndexOfSingleFinite` | neurokit2/complexity/entropy_multiscale.py:266-271 | exactly one finite per-scale value gives index 0 |
| `Aggregation.AreaIndexBounds` | neurokit2/complexity/entropy_multiscale.py:266-271 | one finite value makes the index finite; n times it lies within (n-1) times the bounds of the finite values |
| `Aggregation.AreaIndexOfConstantProfile` | neurokit2/complexity/entropy_multiscale.py:266-271 | n finite values all equal to c give index c(n-1)/n, whatever non-finite values sit between them |
| `Aggregation.DropNaN` | neurokit2/complexity/entropy_multiscale.py:318 | keeps every entry that is not NaN, and only entries of the input that are not NaN |
| `Aggregation.DropInfinite` | neurokit2/complexity/entropy_multiscale.py:319 | keeps every entry that is neither +inf nor -inf, NaN included, and nothing else |
| `Aggregation.DropNaNThenInfinite` | neurokit2/complexity/entropy_multiscale.py:317-319 | dropping NaN and then the infinities keeps exactly the finite entries, in order |
| `Aggregation.DropNonFinite` | neurokit2/complexity/entropy_multiscale.py:376 | the single mask keeps only finite entries, and keeps every finite value, in order |
| `EntropyMultiscale.Algorithm` | neurokit2/complexity/entropy_multiscale.py:206-210 | a false `approximate` selects `entropy_sample`; a true one selects `entropy_approximate` |
| `EntropyMultiscale.RunAlgo` | neurokit2/complexity/entropy_multiscale.py:221-245 | a series returns the estimator's value unchanged; a stack returns the robust mean of the per-row values in row order, NaN exactly when no row value is finite |
| `EntropyMultiscale.EntropyMultiscale` | neurokit2/complexity/entropy_multiscale.py:194-271 | `info` records the given dimension, the selected scales and the one tolerance; `Value` has one entry per scale, in order, each computed with that same dimension and tolerance; the index is the area index of `Value` |
| `EntropyMultiscale.VariantFlagsAreIgnored` | neurokit2/complexity/entropy_multiscale.py:13-24 | the result does not depend on `composite`, `refined` or `fuzzy` |
| `EntropyMultiscale.NoLengthFloorAtEntry` | neurokit2/complexity/entropy_multiscale.py:221-230 | a single coarse-grained series is estimated whatever its length |
| `EntropyMultiscale.DegenerateScaleLeavesIndex` | neurokit2/complexity/entropy_multiscale.py:266-271 | the index equals the index of the profile with a non-finite scale removed |
| `EntropyMultiscale.StackAgreesWithCmse` | neurokit2/complexity/entropy_multiscale.py:232-245 | above the length floor, the entry point's stack path equals internal CMSE with the same estimator |
| `Variants.VariantOf` | neurokit2/complexity/entropy_multiscale.py:299-315 | RCMSE exactly when refined is set, whatever composite is; CMSE exactly when only composite is set; plain MSE exactly when neither is |
| `Variants.MseValue` | neurokit2/complexity/entropy_multiscale.py:350-357 | NaN when the coarse-grained series is shorter than 10^dimension, otherwise its sample entropy |
| `Variants.ShortScaleIsExcluded` | neurokit2/complexity/entropy_multiscale.py:350-353 | under plain MSE, a scale below the floor is NaN and the index is taken over fewer values than there are scales |
| `Variants.CountFlagged` | neurokit2/complexity/entropy_multiscale.py:371-373 | the guard never flags a finite entry: flagged plus finite entries never exceed the row count, so flagging every entry means none is finite |
| `Variants.CountFlaggedIgnoresNaN` | neurokit2/complexity/entropy_multiscale.py:371 | an all-NaN `mse_y` flags nothing, so the guard lets it through |
| `Variants.CmseValue` | neurokit2/complexity/entropy_multiscale.py:360-378 | NaN exactly when the stack is below the 10^dimension size floor or no row entropy is finite; otherwise finite |
| `Variants.CompositeEntropy` | neurokit2/complexity/entropy_multiscale.py:360-378 | as written, including the dead `== np.nan` test, CMSE is NaN below the 10^dimension size floor and otherwise the NaN-robust mean of the row entropies |
| `Variants.CmseOfUniformRows` | neurokit2/complexity/entropy_multiscale.py:360-378 | for a stack of at least 10^dimension values whose rows all have the same finite entropy e, CMSE is e |
| `Variants.CmseOfSingleRow` | neurokit2/complexity/entropy_multiscale.py:350-378 | a one-row stack equal to the plain series gives the plain value when that value is finite, and NaN otherwise |
| `Variants.RcmseValue` | neurokit2/complexity/entropy_multiscale.py:381-384 | NaN when the stack is below the 10^dimension size floor |
| `Variants.RefinedCompositeEntropy` | neurokit2/complexity/entropy_multiscale.py:381-400 | NaN below the size floor; otherwise `_phi_divide` is applied once, to the column means of the per-row phi pairs |
| `Variants.RcmseIsNotRobust` | neurokit2/complexity/entropy_multiscale.py:386-400 | one row with a non-finite first phi statistic makes the first column mean passed to `_phi_divide` non-finite; no row is skipped |
| `Variants.RcmseOfUniformRows` | neurokit2/complexity/entropy_multiscale.py:386-400 | for a stack of at least 10^dimension values whose rows all share the phi pair p, RCMSE is `_phi_divide(p)`, whatever the class of p's components |
| `Variants.CompositeVariantsAgreeOnUniformRows` | neurokit2/complexity/entropy_multiscale.py:360-400 | for a stack of at least 10^dimension values of identical rows whose entropy is finite and equals their phi pair divided once, CMSE and RCMSE agree |
| `Variants.CompositeVariantsDivergeOnNonFiniteRows` | neurokit2/complexity/entropy_multiscale.py:360-400 | for the same identical rows with a non-finite entropy, CMSE is NaN and RCMSE is that non-finite value |
| `Variants.MultiscaleEntropy` | neurokit2/complexity/entropy_multiscale.py:283-329 | one slot per scale factor, each holding its own scale's value under the variant the flags select; the index is the area index over the finite slots |

## Left out

- Plotting: `_entropy_multiscale_plot` and the `show` branches are side effects only. The call at line 327 passes two arguments to a one-argument plotter; it is not modelled.
- Coarse-graining, the estimators, `_phi`, `_phi_divide`, `complexity_tolerance` and `_get_scales` are parameters. Their definitions, and the logarithms inside them, are not part of this model.
- Input handling: the NumPy/pandas dimension check, its `ValueError`, and the removal of `delay` from `**kwargs`. The signal is a one-dimensional `seq<real>` by construction.
- Floating point: rounding, overflow of sums and NumPy's runtime warnings. Finite values are exact reals.
- `delay` is fixed at 1 in every estimator call and is not a parameter.
- The flags as Python objects: the source tests `approximate is False`, `refined is False`, `composite is False` and `composite is True` by identity. A flag that is not a Python bool (`0`, `1`, `None`, `numpy.False_`) fails those tests and lands in the other branch: `entropy_approximate` at the entry point, RCMSE in `_entropy_multiscale`. The model types the flags as `bool` and does not capture these identity tests.
- A negative `dimension`, which would make `10 ** dimension` a fraction; the model takes `dimension: nat`.
- neurokit2/complexity/fractal_katz.py: a closed-form formula over floating-point logarithms, outside this core.
- neurokit2/markov/__init__.py: re-exports only.
