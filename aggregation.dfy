/** The two reductions of the pipeline that discard degenerate values:
    the NaN-robust mean used for composite rows, and the area-under-curve
    index that collapses a per-scale profile into one number. */
module Aggregation {
  import opened Floats

  // ---------------------------------------------------------------------
  // `_validmean`: the mean that is robust to NaN
  // ---------------------------------------------------------------------

  /** Keeps the finite entries; not-a-number if none is left, else their mean. */
  function ValidMean(x: seq<Float>): (r: Float)
    ensures r.NaN? <==> NoneFinite(x)
    ensures r.NaN? || r.IsFinite()
    ensures r.IsFinite() ==> Min(Finite(x)) <= r.v <= Max(Finite(x))
  {
    var kept := Finite(x);
    if |kept| == 0 then NaN
    else
      MeanBetweenExtremes(kept);
      Fin(Mean(kept))
  }

  /** Entries that are not finite have no influence on the robust mean. */
  lemma ValidMeanIgnoresNonFinite(a: seq<Float>, x: Float, b: seq<Float>)
    requires !x.IsFinite()
    ensures ValidMean(a + [x] + b) == ValidMean(a + b)
  {
    FiniteSkipsNonFinite(a, x, b);
  }

  /** Rows that all produce the same finite value c average to c. */
  lemma ValidMeanConstant(x: seq<Float>, c: real)
    requires |x| > 0
    requires forall i :: 0 <= i < |x| ==> x[i] == Fin(c)
    ensures ValidMean(x) == Fin(c)
  {
    FiniteOfConstant(x, c);
    MeanWithin(Finite(x), c, c);
  }

  /** The estimator applied to each row, one value per row, in row order. */
  function MapRows(rows: seq<seq<real>>, estimate: seq<real> -> Float): (r: seq<Float>)
    ensures |r| == |rows|
    ensures forall i :: 0 <= i < |rows| ==> r[i] == estimate(rows[i])
  {
    seq(|rows|, i requires 0 <= i < |rows| => estimate(rows[i]))
  }

  // ---------------------------------------------------------------------
  // The area-under-curve index: `np.trapz(v) / len(v)`
  // ---------------------------------------------------------------------

  /** `np.trapz` with unit spacing: the sum of the averages of neighbours,
      which counts the two end points half and every inner point fully. */
  function Trapz(v: seq<real>): (r: real)
    ensures |v| > 0 ==> r == Sum(v) - (v[0] + v[|v| - 1]) / 2.0
  {
    if |v| < 2 then 0.0
    else
      assert v[1..][0] == v[1];
      assert v[1..][|v| - 2] == v[|v| - 1];
      (v[0] + v[1]) / 2.0 + Trapz(v[1..])
  }

  /** Over n values in [lo, hi] the area lies in [(n - 1) * lo, (n - 1) * hi]. */
  lemma {:induction false} TrapzBounds(v: seq<real>, lo: real, hi: real)
    requires |v| > 0
    requires forall i :: 0 <= i < |v| ==> lo <= v[i] <= hi
    ensures ((|v| - 1) as real) * lo <= Trapz(v) <= ((|v| - 1) as real) * hi
  {
    if |v| >= 2 {
      TrapzBounds(v[1..], lo, hi);
      assert lo <= (v[0] + v[1]) / 2.0 <= hi;
      assert ((|v| - 1) as real) * lo == lo + ((|v| - 2) as real) * lo;
      assert ((|v| - 1) as real) * hi == hi + ((|v| - 2) as real) * hi;
    }
  }

  /** The area over the number of points: not-a-number (0/0) when there are none. */
  function TrapzPerPoint(v: seq<real>): (r: Float)
    ensures r.NaN? <==> |v| == 0
    ensures r.NaN? || r.IsFinite()
  {
    if |v| == 0 then NaN else Fin(Trapz(v) / (|v| as real))
  }

  /** The index over a per-scale profile: the area per point over its finite
      values only; not-a-number exactly when no value is finite. */
  function AreaIndex(values: seq<Float>): (r: Float)
    ensures r.NaN? <==> NoneFinite(values)
    ensures r.NaN? || r.IsFinite()
  {
    TrapzPerPoint(Finite(values))
  }

  /** A non-finite per-scale value never contributes to the index. */
  lemma AreaIndexIgnoresNonFinite(a: seq<Float>, x: Float, b: seq<Float>)
    requires !x.IsFinite()
    ensures AreaIndex(a + [x] + b) == AreaIndex(a + b)
  {
    FiniteSkipsNonFinite(a, x, b);
  }

  /** A finite zero is kept like any other finite value: unlike the
      non-finite ones, it takes its place in the profile the index is taken over. */
  lemma ZeroIsKept(a: seq<Float>, b: seq<Float>)
    ensures Finite(a + [Fin(0.0)] + b) == Finite(a) + [0.0] + Finite(b)
  {
    FiniteConcat(a + [Fin(0.0)], b);
    FiniteConcat(a, [Fin(0.0)]);
    assert Finite([Fin(0.0)]) == [0.0];
  }

  /** A zero at the first scale changes the index where a NaN there does not. */
  lemma ZeroChangesIndex()
    ensures AreaIndex([Fin(0.0), Fin(2.0)]) == Fin(0.5)
    ensures AreaIndex([NaN, Fin(2.0)]) == Fin(0.0)
  {
    assert Finite([Fin(2.0)]) == [2.0];
    assert Finite([Fin(0.0), Fin(2.0)]) == [0.0, 2.0];
    assert Finite([NaN, Fin(2.0)]) == [2.0];
  }

  /** A profile with a single finite value has index 0, whatever that value is. */
  lemma AreaIndexOfSingleFinite(values: seq<Float>, k: nat)
    requires k < |values| && values[k].IsFinite()
    requires forall i :: 0 <= i < |values| && i != k ==> !values[i].IsFinite()
    ensures AreaIndex(values) == Fin(0.0)
  {
    var before, after := values[..k], values[k + 1..];
    assert values == before + [values[k]] + after;
    FiniteConcat(before + [values[k]], after);
    FiniteConcat(before, [values[k]]);
    assert Finite([values[k]]) == [values[k].v];
    assert NoneFinite(before) && NoneFinite(after);
  }

  /** n times the index q lies in [(n - 1) * lo, (n - 1) * hi]. */
  predicate ScaledWithin(q: real, n: nat, lo: real, hi: real)
  {
    ((n - 1) as real) * lo <= q * (n as real) <= ((n - 1) as real) * hi
  }

  /** The index of n >= 1 equal values c: the area c * (n - 1) over n points. */
  function ConstantProfileIndex(c: real, n: nat): real
    requires n > 0
  {
    c * ((n - 1) as real) / (n as real)
  }

  /** Over n >= 1 points in [lo, hi] the area per point, times n, lies in
      [(n - 1) * lo, (n - 1) * hi]. */
  lemma TrapzPerPointBounds(v: seq<real>, lo: real, hi: real)
    requires |v| > 0
    requires forall j :: 0 <= j < |v| ==> lo <= v[j] <= hi
    ensures TrapzPerPoint(v).IsFinite()
    ensures ScaledWithin(TrapzPerPoint(v).v, |v|, lo, hi)
  {
    TrapzBounds(v, lo, hi);
    ScaleBack(TrapzPerPoint(v).v, Trapz(v), |v| as real, (|v| - 1) as real, lo, hi);
  }

  /** n >= 1 equal points c have area c * (n - 1), so c * (n - 1) / n per point. */
  lemma TrapzPerPointOfConstant(v: seq<real>, c: real)
    requires |v| > 0
    requires forall j :: 0 <= j < |v| ==> v[j] == c
    ensures TrapzPerPoint(v) == Fin(ConstantProfileIndex(c, |v|))
  {
    TrapzBounds(v, c, c);
    assert Trapz(v) == ((|v| - 1) as real) * c;
  }

  lemma ScaleBack(q: real, t: real, n: real, k: real, lo: real, hi: real)
    requires n > 0.0 && q == t / n && k * lo <= t <= k * hi
    ensures k * lo <= q * n <= k * hi
  {
  }

  /** The index is finite as soon as one per-scale value is; when the n finite
      values lie in [lo, hi], n times the index lies in [(n - 1) * lo, (n - 1) * hi]. */
  lemma AreaIndexBounds(values: seq<Float>, lo: real, hi: real)
    requires !NoneFinite(values)
    requires forall i :: 0 <= i < |values| && values[i].IsFinite() ==> lo <= values[i].v <= hi
    ensures AreaIndex(values).IsFinite()
    ensures ScaledWithin(AreaIndex(values).v, |Finite(values)|, lo, hi)
  {
    var v := Finite(values);
    FiniteMembers(values);
    forall j | 0 <= j < |v| ensures lo <= v[j] <= hi {
      assert v[j] in v;
      assert Fin(v[j]) in values;
    }
    TrapzPerPointBounds(v, lo, hi);
  }

  /** A profile whose n finite values all equal c has index c * (n - 1) / n. */
  lemma AreaIndexOfConstantProfile(values: seq<Float>, c: real)
    requires !NoneFinite(values)
    requires forall i :: 0 <= i < |values| ==> !values[i].IsFinite() || values[i] == Fin(c)
    ensures AreaIndex(values) == Fin(ConstantProfileIndex(c, |Finite(values)|))
  {
    var v := Finite(values);
    FiniteOfConstant(values, c);
    TrapzPerPointOfConstant(v, c);
  }

  // ---------------------------------------------------------------------
  // The two-step filter `x[~np.isnan(x)]` then `x[(x != inf) & (x != -inf)]`
  // ---------------------------------------------------------------------

  /** `x[~np.isnan(x)]`: every entry that is not NaN, and only those. */
  function DropNaN(xs: seq<Float>): (r: seq<Float>)
    ensures |r| <= |xs|
    ensures forall x :: x in r ==> x in xs && !x.NaN?
    ensures forall x :: x in xs && !x.NaN? ==> x in r
  {
    if |xs| == 0 then []
    else
      assert forall x :: x in xs ==> x == xs[0] || x in xs[1..];
      (if xs[0].NaN? then [] else [xs[0]]) + DropNaN(xs[1..])
  }

  /** `x[(x != inf) & (x != -inf)]`: every entry that is not an infinity, and
      only those. A NaN compares unequal to both, so it is kept. */
  function DropInfinite(xs: seq<Float>): (r: seq<Float>)
    ensures |r| <= |xs|
    ensures forall x :: x in r ==> x in xs && x != PosInf && x != NegInf
    ensures forall x :: x in xs && x != PosInf && x != NegInf ==> x in r
  {
    if |xs| == 0 then []
    else
      assert forall x :: x in xs ==> x == xs[0] || x in xs[1..];
      var keep := !IeeeEq(xs[0], PosInf) && !IeeeEq(xs[0], NegInf);
      (if keep then [xs[0]] else []) + DropInfinite(xs[1..])
  }

  /** Dropping NaN and then the infinities keeps exactly the finite entries, in order. */
  lemma {:induction false} DropNaNThenInfinite(xs: seq<Float>)
    ensures AllFinite(DropInfinite(DropNaN(xs)))
    ensures Finite(DropInfinite(DropNaN(xs))) == Finite(xs)
  {
    if |xs| > 0 {
      DropNaNThenInfinite(xs[1..]);
      var head := if xs[0].NaN? then [] else [xs[0]];
      assert DropNaN(xs) == head + DropNaN(xs[1..]);
      DropInfiniteConcat(head, DropNaN(xs[1..]));
      var kept := DropInfinite(head);
      assert kept == if xs[0].IsFinite() then [xs[0]] else [];
      FiniteConcat(kept, DropInfinite(DropNaN(xs[1..])));
    }
  }

  lemma {:induction false} DropInfiniteConcat(a: seq<Float>, b: seq<Float>)
    ensures DropInfinite(a + b) == DropInfinite(a) + DropInfinite(b)
  {
    if |a| > 0 {
      assert (a + b)[1..] == a[1..] + b;
      DropInfiniteConcat(a[1..], b);
    } else {
      assert a + b == b;
    }
  }

  // ---------------------------------------------------------------------
  // The one-mask filter `x[(x != inf) & (x != -inf) & ~np.isnan(x)]`
  // ---------------------------------------------------------------------

  /** Keeps the entries that equal neither infinity and are not NaN, in order:
      exactly the finite entries. */
  function DropNonFinite(xs: seq<Float>): (r: seq<Float>)
    ensures AllFinite(r)
    ensures Finite(r) == Finite(xs)
  {
    if |xs| == 0 then []
    else
      var keep := !IeeeEq(xs[0], PosInf) && !IeeeEq(xs[0], NegInf) && !xs[0].NaN?;
      var head := if keep then [xs[0]] else [];
      var rest := DropNonFinite(xs[1..]);
      FiniteConcat(head, rest);
      assert Finite(head) == if xs[0].IsFinite() then [xs[0].v] else [];
      head + rest
  }
}
