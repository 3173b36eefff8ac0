/**
 * The elementary statistics the server takes from Python and NumPy:
 * the built-in `min` and `max`, `np.mean` and the population variance
 * behind `np.std` (the standard deviation is never taken: every comparison
 * against it is stated on squares instead).
 */
module Stats {

  function Sum(s: seq<real>): real
  {
    if s == [] then 0.0 else s[0] + Sum(s[1..])
  }

  /** `np.mean` of a non-empty sequence. */
  function Mean(s: seq<real>): real
    requires s != []
  {
    Sum(s) / (|s| as real)
  }

  function SquaredDeviations(s: seq<real>, centre: real): (d: seq<real>)
    ensures |d| == |s|
    ensures forall k :: 0 <= k < |d| ==> 0.0 <= d[k]
  {
    seq(|s|, k requires 0 <= k < |s| => Square(s[k] - centre))
  }

  function Square(x: real): (y: real)
    ensures 0.0 <= y
  {
    x * x
  }

  /** The population variance, the square of `np.std`. */
  function Variance(s: seq<real>): real
    requires s != []
  {
    Mean(SquaredDeviations(s, Mean(s)))
  }

  /** Python's `min` over a non-empty sequence. */
  function Min(s: seq<real>): (m: real)
    requires s != []
    ensures m in s
    ensures forall k :: 0 <= k < |s| ==> m <= s[k]
  {
    if |s| == 1 then s[0]
    else
      var rest := Min(s[1..]);
      if s[0] <= rest then s[0] else rest
  }

  /** Python's `max` over a non-empty sequence. */
  function Max(s: seq<real>): (m: real)
    requires s != []
    ensures m in s
    ensures forall k :: 0 <= k < |s| ==> s[k] <= m
  {
    if |s| == 1 then s[0]
    else
      var rest := Max(s[1..]);
      if rest <= s[0] then s[0] else rest
  }

  lemma {:induction false} SumAtLeast(s: seq<real>, lo: real)
    requires forall k :: 0 <= k < |s| ==> lo <= s[k]
    ensures (|s| as real) * lo <= Sum(s)
  {
    if s != [] {
      SumAtLeast(s[1..], lo);
    }
  }

  lemma {:induction false} SumAtMost(s: seq<real>, hi: real)
    requires forall k :: 0 <= k < |s| ==> s[k] <= hi
    ensures Sum(s) <= (|s| as real) * hi
  {
    if s != [] {
      SumAtMost(s[1..], hi);
    }
  }

  lemma MeanAtLeast(s: seq<real>, lo: real)
    requires s != []
    requires forall k :: 0 <= k < |s| ==> lo <= s[k]
    ensures lo <= Mean(s)
  {
    SumAtLeast(s, lo);
    var n := |s| as real;
    assert Mean(s) * n == Sum(s);
  }

  lemma MeanAtMost(s: seq<real>, hi: real)
    requires s != []
    requires forall k :: 0 <= k < |s| ==> s[k] <= hi
    ensures Mean(s) <= hi
  {
    SumAtMost(s, hi);
    var n := |s| as real;
    assert Mean(s) * n == Sum(s);
  }

  /** The mean lies between the smallest and the largest sample. */
  lemma MeanBetweenExtremes(s: seq<real>)
    requires s != []
    ensures Min(s) <= Mean(s) <= Max(s)
  {
    MeanAtLeast(s, Min(s));
    MeanAtMost(s, Max(s));
  }

  lemma VarianceNonNegative(s: seq<real>)
    requires s != []
    ensures 0.0 <= Variance(s)
  {
    MeanAtLeast(SquaredDeviations(s, Mean(s)), 0.0);
  }

  lemma {:induction false} SumOfConstant(s: seq<real>, c: real)
    requires forall k :: 0 <= k < |s| ==> s[k] == c
    ensures Sum(s) == (|s| as real) * c
  {
    if s != [] {
      SumOfConstant(s[1..], c);
    }
  }

  /** A sequence of equal samples has that sample as its mean and no spread. */
  lemma ConstantHasZeroVariance(s: seq<real>)
    requires s != []
    requires forall k :: 0 <= k < |s| ==> s[k] == s[0]
    ensures Mean(s) == s[0]
    ensures Variance(s) == 0.0
  {
    SumOfConstant(s, s[0]);
    var d := SquaredDeviations(s, Mean(s));
    SumOfConstant(d, 0.0);
  }

  /** `np.mean` of a two-element sequence. */
  lemma MeanOfTwo(a: real, b: real)
    ensures Mean([a, b]) == (a + b) / 2.0
  {
    assert [b][1..] == [];
    assert Sum([b]) == b;
    assert [a, b][1..] == [b];
    assert Sum([a, b]) == a + b;
  }
}
