/** Double-precision values as the entropy pipeline sees them.
    A finite double is modelled by an exact real; rounding is not modelled.
    What matters here is the class of a value (finite, not-a-number,
    plus or minus infinity) and how NumPy's sum and mean propagate it. */
module Floats {

  datatype Float = Fin(v: real) | NaN | PosInf | NegInf {
    /** `np.isfinite` */
    predicate IsFinite() { Fin? }
  }

  /** `a == b` on doubles: never true when either side is not-a-number. */
  function IeeeEq(a: Float, b: Float): bool
  {
    !a.NaN? && !b.NaN? && a == b
  }

  lemma NaNEqualsNothing(x: Float)
    ensures !IeeeEq(x, NaN)
    ensures !IeeeEq(NaN, x)
  {
  }

  predicate AllFinite(xs: seq<Float>)
  {
    forall i :: 0 <= i < |xs| ==> xs[i].IsFinite()
  }

  predicate NoneFinite(xs: seq<Float>)
  {
    forall i :: 0 <= i < |xs| ==> !xs[i].IsFinite()
  }

  // ---------------------------------------------------------------------
  // Exact arithmetic on finite values
  // ---------------------------------------------------------------------

  function Sum(xs: seq<real>): real
  {
    if |xs| == 0 then 0.0 else xs[0] + Sum(xs[1..])
  }

  function Mean(xs: seq<real>): real
    requires |xs| > 0
  {
    Sum(xs) / (|xs| as real)
  }

  function Min(xs: seq<real>): (m: real)
    requires |xs| > 0
    ensures m in xs
    ensures forall i :: 0 <= i < |xs| ==> m <= xs[i]
  {
    if |xs| == 1 then xs[0]
    else
      var rest := Min(xs[1..]);
      if xs[0] <= rest then xs[0] else rest
  }

  function Max(xs: seq<real>): (m: real)
    requires |xs| > 0
    ensures m in xs
    ensures forall i :: 0 <= i < |xs| ==> xs[i] <= m
  {
    if |xs| == 1 then xs[0]
    else
      var rest := Max(xs[1..]);
      if rest <= xs[0] then xs[0] else rest
  }

  /** A sum of n values in [lo, hi] lies in [n * lo, n * hi]. */
  lemma {:induction false} SumBounds(xs: seq<real>, lo: real, hi: real)
    requires forall i :: 0 <= i < |xs| ==> lo <= xs[i] <= hi
    ensures (|xs| as real) * lo <= Sum(xs) <= (|xs| as real) * hi
  {
    if |xs| > 0 {
      SumBounds(xs[1..], lo, hi);
      assert (|xs| as real) * lo == lo + ((|xs| - 1) as real) * lo;
      assert (|xs| as real) * hi == hi + ((|xs| - 1) as real) * hi;
    }
  }

  /** The mean of values in [lo, hi] lies in [lo, hi]. */
  lemma MeanWithin(xs: seq<real>, lo: real, hi: real)
    requires |xs| > 0
    requires forall i :: 0 <= i < |xs| ==> lo <= xs[i] <= hi
    ensures lo <= Mean(xs) <= hi
  {
    var n := |xs| as real;
    SumBounds(xs, lo, hi);
    assert Mean(xs) * n == Sum(xs);
    assert lo * n <= Mean(xs) * n <= hi * n;
  }

  /** The arithmetic mean lies between the smallest and the largest value. */
  lemma MeanBetweenExtremes(xs: seq<real>)
    requires |xs| > 0
    ensures Min(xs) <= Mean(xs) <= Max(xs)
  {
    MeanWithin(xs, Min(xs), Max(xs));
  }

  // ---------------------------------------------------------------------
  // The finite part of a sequence of doubles: `x[np.isfinite(x)]`
  // ---------------------------------------------------------------------

  /** The values of the finite entries of `xs`, in order. */
  function Finite(xs: seq<Float>): (r: seq<real>)
    ensures |r| <= |xs|
    ensures |r| == |xs| <==> AllFinite(xs)
    ensures |r| == 0 <==> NoneFinite(xs)
  {
    if |xs| == 0 then []
    else
      var rest := Finite(xs[1..]);
      if xs[0].IsFinite() then [xs[0].v] + rest else rest
  }

  /** Each value kept by `Finite` comes from a finite entry of the input. */
  lemma {:induction false} FiniteMembers(xs: seq<Float>)
    ensures forall y :: y in Finite(xs) ==> Fin(y) in xs
  {
    if |xs| > 0 {
      FiniteMembers(xs[1..]);
      assert forall x :: x in xs[1..] ==> x in xs;
    }
  }

  lemma {:induction false} FiniteConcat(a: seq<Float>, b: seq<Float>)
    ensures Finite(a + b) == Finite(a) + Finite(b)
  {
    if |a| > 0 {
      assert (a + b)[1..] == a[1..] + b;
      FiniteConcat(a[1..], b);
    } else {
      assert a + b == b;
    }
  }

  /** Removing a non-finite entry leaves the finite part unchanged. */
  lemma FiniteSkipsNonFinite(a: seq<Float>, x: Float, b: seq<Float>)
    requires !x.IsFinite()
    ensures Finite(a + [x] + b) == Finite(a + b)
  {
    assert Finite([x]) == [] by {
      assert [x][1..] == [];
    }
    calc {
      Finite(a + [x] + b);
      { FiniteConcat(a + [x], b); }
      Finite(a + [x]) + Finite(b);
      { FiniteConcat(a, [x]); }
      Finite(a) + Finite(b);
      { FiniteConcat(a, b); }
      Finite(a + b);
    }
  }

  /** Every finite value equal to c makes the finite part a run of c's. */
  lemma FiniteOfConstant(xs: seq<Float>, c: real)
    requires forall i :: 0 <= i < |xs| ==> !xs[i].IsFinite() || xs[i] == Fin(c)
    ensures forall j :: 0 <= j < |Finite(xs)| ==> Finite(xs)[j] == c
  {
    var r := Finite(xs);
    FiniteMembers(xs);
    forall j | 0 <= j < |r| ensures r[j] == c {
      assert r[j] in r;
      assert Fin(r[j]) in xs;
    }
  }

  // ---------------------------------------------------------------------
  // NumPy's sum and mean over doubles
  // ---------------------------------------------------------------------

  /** IEEE addition, up to rounding. */
  function FAdd(a: Float, b: Float): Float
  {
    match (a, b)
    case (Fin(x), Fin(y)) => Fin(x + y)
    case (NaN, _) => NaN
    case (_, NaN) => NaN
    case (PosInf, NegInf) => NaN
    case (NegInf, PosInf) => NaN
    case (PosInf, _) => PosInf
    case (_, PosInf) => PosInf
    case (NegInf, _) => NegInf
    case (_, NegInf) => NegInf
  }

  /** `np.sum`: finite exactly when every term is, and then the exact sum. */
  function FSum(xs: seq<Float>): (r: Float)
    ensures r.IsFinite() <==> AllFinite(xs)
    ensures r.IsFinite() ==> r.v == Sum(Finite(xs))
  {
    if |xs| == 0 then Fin(0.0) else FAdd(xs[0], FSum(xs[1..]))
  }

  /** A double divided by a positive count. */
  function FDivCount(a: Float, n: nat): Float
    requires n > 0
  {
    match a
    case Fin(x) => Fin(x / (n as real))
    case _ => a
  }

  /** `np.mean`: not-a-number on an empty array, otherwise the sum over the count. */
  function FMean(xs: seq<Float>): (r: Float)
    ensures r.IsFinite() <==> |xs| > 0 && AllFinite(xs)
    ensures r.IsFinite() ==> r.v == Mean(Finite(xs))
    ensures |xs| == 0 ==> r.NaN?
  {
    if |xs| == 0 then NaN else FDivCount(FSum(xs), |xs|)
  }

  /** Summing copies of a non-finite double gives that double back. */
  lemma {:induction false} FSumNonFiniteConstant(xs: seq<Float>, a: Float)
    requires |xs| > 0 && !a.IsFinite()
    requires forall i :: 0 <= i < |xs| ==> xs[i] == a
    ensures FSum(xs) == a
  {
    if |xs| > 1 {
      FSumNonFiniteConstant(xs[1..], a);
    }
  }

  /** The mean of n >= 1 copies of a double is that double, whatever its class. */
  lemma FMeanConstant(xs: seq<Float>, a: Float)
    requires |xs| > 0
    requires forall i :: 0 <= i < |xs| ==> xs[i] == a
    ensures FMean(xs) == a
  {
    if a.IsFinite() {
      FiniteOfConstant(xs, a.v);
      MeanWithin(Finite(xs), a.v, a.v);
    } else {
      FSumNonFiniteConstant(xs, a);
    }
  }
}
