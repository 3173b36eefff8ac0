/**
 * `calculate_r`: align the red and infrared pulses by truncation, form one
 * ratio of ratios per pulse, drop the ratios one standard deviation or more
 * away from their mean, and average the rest.
 *
 * `|r - mean| < std` is stated as `(r - mean)^2 < variance`, which is the same
 * test because both sides are non-negative and `std` is the square root of
 * the population variance.
 */
module Ratio {
  import opened Optional
  import opened Stats
  import opened Pulses

  predicate Paired(m: Measurement)
  {
    |m.ac| == |m.dc|
  }

  /**
   * When the AC lists differ in length, all four lists are cut to the shorter
   * length, keeping the earliest pulses; otherwise nothing is cut.
   */
  function Truncate(red: Measurement, ir: Measurement): (p: (Measurement, Measurement))
    requires Paired(red) && Paired(ir)
    ensures var n := if |red.ac| <= |ir.ac| then |red.ac| else |ir.ac|;
      && |p.0.ac| == |p.0.dc| == |p.1.ac| == |p.1.dc| == n
      && p.0.ac == red.ac[..n] && p.0.dc == red.dc[..n]
      && p.1.ac == ir.ac[..n] && p.1.dc == ir.dc[..n]
    ensures |red.ac| == |ir.ac| ==> p == (red, ir)
  {
    if |red.ac| != |ir.ac| then
      var n := if |red.ac| <= |ir.ac| then |red.ac| else |ir.ac|;
      (Measurement(red.ac[..n], red.dc[..n]), Measurement(ir.ac[..n], ir.dc[..n]))
    else
      (red, ir)
  }

  /** Every divisor of the ratio of ratios is non-zero on the aligned pulses. */
  predicate NonzeroDenominators(red: Measurement, ir: Measurement)
    requires Paired(red) && Paired(ir)
  {
    forall i :: 0 <= i < |red.ac| && i < |ir.ac| ==>
      red.dc[i] != 0.0 && ir.ac[i] != 0.0 && ir.dc[i] != 0.0
  }

  /** One ratio per aligned pulse: (red AC / red DC) / (infrared AC / infrared DC). */
  function RatioOfRatios(red: Measurement, ir: Measurement): (rs: seq<real>)
    requires Paired(red) && Paired(ir) && |red.ac| == |ir.ac|
    requires NonzeroDenominators(red, ir)
    ensures |rs| == |red.ac|
    ensures Usable(red) && Usable(ir) ==> forall i :: 0 <= i < |rs| ==> 0.0 < rs[i]
  {
    seq(|red.ac|, i requires 0 <= i < |red.ac| => (red.ac[i] / red.dc[i]) / (ir.ac[i] / ir.dc[i]))
  }

  /** `r_values`: the ratios of the truncated lists. */
  function RatioValues(red: Measurement, ir: Measurement): (rs: seq<real>)
    requires Paired(red) && Paired(ir) && NonzeroDenominators(red, ir)
    ensures |rs| == if |red.ac| <= |ir.ac| then |red.ac| else |ir.ac|
    ensures forall i :: 0 <= i < |rs| ==> rs[i] == (red.ac[i] / red.dc[i]) / (ir.ac[i] / ir.dc[i])
  {
    var p := Truncate(red, ir);
    RatioOfRatios(p.0, p.1)
  }

  /** Kept by the outlier filter: strictly less than one standard deviation from the mean. */
  predicate Retained(x: real, rs: seq<real>)
    requires rs != []
  {
    Square(x - Mean(rs)) < Variance(rs)
  }

  /** `a` occurs in `b` in order, possibly with gaps. */
  predicate IsSubsequence(a: seq<real>, b: seq<real>)
    decreases |b|
  {
    || a == []
    || (b != [] && ((a[0] == b[0] && IsSubsequence(a[1..], b[1..])) || IsSubsequence(a, b[1..])))
  }

  /**
   * The comprehension `filtered_r`: the values within one standard deviation
   * of the mean, in their original order.
   */
  function WithinOneDeviation(rs: seq<real>, mean: real, variance: real): (kept: seq<real>)
    ensures forall x :: x in kept <==> x in rs && Square(x - mean) < variance
    ensures forall x :: multiset(kept)[x] == if Square(x - mean) < variance then multiset(rs)[x] else 0
    ensures IsSubsequence(kept, rs)
  {
    if rs == [] then []
    else
      assert rs == [rs[0]] + rs[1..];
      var rest := WithinOneDeviation(rs[1..], mean, variance);
      if Square(rs[0] - mean) < variance then [rs[0]] + rest else rest
  }

  lemma SquareMonotone(x: real, y: real)
    requires 0.0 <= x <= y
    ensures Square(x) <= Square(y)
  {
    assert y * y - x * x == (y - x) * (y + x);
    assert 0.0 <= (y - x) * (y + x);
  }

  /** A value between two values within one deviation is itself within it. */
  lemma BetweenRetained(a: real, y: real, b: real, mean: real, variance: real)
    requires a <= y <= b
    requires Square(a - mean) < variance && Square(b - mean) < variance
    ensures Square(y - mean) < variance
  {
    if mean <= y {
      SquareMonotone(y - mean, b - mean);
    } else {
      SquareMonotone(mean - y, mean - a);
      assert Square(mean - y) == Square(y - mean);
      assert Square(mean - a) == Square(a - mean);
    }
  }

  /** The mean of values that are all within one deviation is within it too. */
  lemma MeanOfRetainedIsRetained(kept: seq<real>, mean: real, variance: real)
    requires kept != []
    requires forall x :: x in kept ==> Square(x - mean) < variance
    ensures Min(kept) <= Mean(kept) <= Max(kept)
    ensures Square(Mean(kept) - mean) < variance
  {
    MeanBetweenExtremes(kept);
    BetweenRetained(Min(kept), Mean(kept), Max(kept), mean, variance);
  }

  /**
   * The mean of the values of `rs` strictly closer to `mean` than the
   * deviation whose square is `variance`; None when no value is that close.
   */
  function KeptMean(rs: seq<real>, mean: real, variance: real): Option<real>
  {
    var kept := WithinOneDeviation(rs, mean, variance);
    if kept == [] then None else Some(Mean(kept))
  }

  lemma KeptMeanUndefinedIff(rs: seq<real>, mean: real, variance: real)
    ensures KeptMean(rs, mean, variance).None? <==>
      forall x :: x in rs ==> variance <= Square(x - mean)
  {
    var kept := WithinOneDeviation(rs, mean, variance);
    if kept != [] {
      assert kept[0] in rs;
    }
  }

  /** The mean of the kept values is itself within the deviation. */
  lemma KeptMeanWithin(rs: seq<real>, mean: real, variance: real)
    requires KeptMean(rs, mean, variance).Some?
    ensures Square(KeptMean(rs, mean, variance).value - mean) < variance
  {
    var kept := WithinOneDeviation(rs, mean, variance);
    MeanOfRetainedIsRetained(kept, mean, variance);
  }

  /** The mean of the kept values lies between the extremes of all values. */
  lemma KeptMeanBetweenExtremes(rs: seq<real>, mean: real, variance: real)
    requires KeptMean(rs, mean, variance).Some?
    ensures rs != []
    ensures Min(rs) <= KeptMean(rs, mean, variance).value <= Max(rs)
  {
    var kept := WithinOneDeviation(rs, mean, variance);
    MeanBetweenExtremes(kept);
    assert Min(kept) in rs && Max(kept) in rs;
  }

  /**
   * Lines 119-121 of `calculate_r`: the mean of the ratios kept by the outlier
   * filter; None where `np.mean` of an empty list gives NaN, that is when
   * there are no ratios or none survives the filter.
   */
  function FilteredMean(rs: seq<real>): Option<real>
  {
    if rs == [] then None else KeptMean(rs, Mean(rs), Variance(rs))
  }

  /** The value `calculate_r` stores in `r_value` (None standing for NaN). */
  function CalculateR(red: Measurement, ir: Measurement): (r: Option<real>)
    requires Paired(red) && Paired(ir) && NonzeroDenominators(red, ir)
    ensures var rs := RatioValues(red, ir);
      r.None? <==> (rs == [] || forall x :: x in rs ==> !Retained(x, rs))
    ensures var rs := RatioValues(red, ir);
      r.Some? ==> rs != [] && Min(rs) <= r.value <= Max(rs) && Retained(r.value, rs)
  {
    var rs := RatioValues(red, ir);
    FilteredMeanUndefinedIff(rs);
    if FilteredMean(rs).Some? then FilteredMeanRetained(rs); FilteredMean(rs)
    else FilteredMean(rs)
  }

  /**
   * The filtered mean is undefined exactly when no ratio lies within one
   * standard deviation of the mean of all ratios.
   */
  lemma FilteredMeanUndefinedIff(rs: seq<real>)
    ensures FilteredMean(rs).None? <==> (rs == [] || forall x :: x in rs ==> !Retained(x, rs))
  {
    if rs != [] {
      KeptMeanUndefinedIff(rs, Mean(rs), Variance(rs));
    }
  }

  /**
   * A defined filtered mean lies between the smallest and the largest ratio
   * and is itself within one standard deviation of the mean of all ratios.
   */
  lemma FilteredMeanRetained(rs: seq<real>)
    requires FilteredMean(rs).Some?
    ensures var r := FilteredMean(rs).value;
      rs != [] && Min(rs) <= r <= Max(rs) && Retained(r, rs)
  {
    KeptMeanWithin(rs, Mean(rs), Variance(rs));
    KeptMeanBetweenExtremes(rs, Mean(rs), Variance(rs));
  }

  /** Identical ratios have no spread, so every one is rejected and no R results. */
  lemma IdenticalRatiosGiveNoR(rs: seq<real>)
    requires forall i :: 0 <= i < |rs| ==> rs[i] == rs[0]
    ensures FilteredMean(rs).None?
  {
    if rs != [] {
      ConstantHasZeroVariance(rs);
      KeptMeanUndefinedIff(rs, Mean(rs), Variance(rs));
    }
  }

  /** Positive measurements give positive ratios, so a computed R is positive. */
  lemma PositiveMeasurementsGivePositiveR(red: Measurement, ir: Measurement)
    requires Usable(red) && Usable(ir)
    ensures NonzeroDenominators(red, ir)
    ensures CalculateR(red, ir).Some? ==> 0.0 < CalculateR(red, ir).value
  {
    var p := Truncate(red, ir);
    assert Usable(p.0) && Usable(p.1);
    var rs := RatioValues(red, ir);
    assert rs == RatioOfRatios(p.0, p.1);
    if FilteredMean(rs).Some? {
      FilteredMeanRetained(rs);
      assert 0.0 < Min(rs);
    }
  }
}
