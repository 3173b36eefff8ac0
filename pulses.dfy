/**
 * Per-pulse AC/DC extraction: the loop at the end of `find_ACDC`.
 *
 * The filtered trace and its trough indices are inputs here; they come from
 * the band-pass filter and from `find_peaks` on the negated trace, neither of
 * which is part of this model. `ValidTroughs` asks for what the slicing
 * needs: indices in increasing order, none of them the first sample (so that
 * `troughs[i] - 1` is a sample) and all of them inside the trace (so that the
 * slice end `troughs[i + 1] + 1` is at most its length). `find_peaks`
 * reports such indices.
 */
module Pulses {
  import opened Stats

  /** A channel's measurement: one AC and one DC value per pulse. */
  datatype Measurement = Measurement(ac: seq<real>, dc: seq<real>)

  predicate ValidTroughs(troughs: seq<int>, n: int)
  {
    && (forall i :: 0 <= i < |troughs| ==> 1 <= troughs[i] < n)
    && (forall i :: 0 <= i < |troughs| - 1 ==> troughs[i] < troughs[i + 1])
  }

  /** `len(troughs) - 1` pulses, and none when there are fewer than two troughs. */
  function PulseCount(troughs: seq<int>): nat
  {
    if |troughs| < 2 then 0 else |troughs| - 1
  }

  /**
   * The samples of pulse i: from the sample just before trough i up to and
   * including trough i + 1 (the Python slice end `troughs[i + 1] + 1` is
   * exclusive).
   */
  function Segment(samples: seq<real>, troughs: seq<int>, i: int): (seg: seq<real>)
    requires ValidTroughs(troughs, |samples|)
    requires 0 <= i < |troughs| - 1
    ensures |seg| == troughs[i + 1] - troughs[i] + 2
    ensures forall j :: troughs[i] - 1 <= j <= troughs[i + 1] ==> seg[j - troughs[i] + 1] == samples[j]
  {
    samples[troughs[i] - 1 .. troughs[i + 1] + 1]
  }

  predicate NonNegative(samples: seq<real>)
  {
    forall k :: 0 <= k < |samples| ==> 0.0 <= samples[k]
  }

  predicate Positive(samples: seq<real>)
  {
    forall k :: 0 <= k < |samples| ==> 0.0 < samples[k]
  }

  /** No pulse segment is flat, so every AC value is non-zero. */
  predicate NonFlat(samples: seq<real>, troughs: seq<int>)
    requires ValidTroughs(troughs, |samples|)
  {
    forall i :: 0 <= i < PulseCount(troughs) ==>
      Min(Segment(samples, troughs, i)) < Max(Segment(samples, troughs, i))
  }

  /** Equal lengths and strictly positive values: safe as a ratio denominator. */
  predicate Usable(m: Measurement)
  {
    && |m.ac| == |m.dc|
    && forall i :: 0 <= i < |m.dc| ==> 0.0 < m.ac[i] && 0.0 < m.dc[i]
  }

  /** The DC value of pulse i: `min(slice)`, the lowest sample of its segment. */
  function PulseFloor(samples: seq<real>, troughs: seq<int>, i: int): (d: real)
    requires ValidTroughs(troughs, |samples|)
    requires 0 <= i < |troughs| - 1
    ensures d in Segment(samples, troughs, i)
    ensures forall j :: troughs[i] - 1 <= j <= troughs[i + 1] ==> d <= samples[j]
  {
    Min(Segment(samples, troughs, i))
  }

  /** `max(slice)`, the highest sample of the segment of pulse i. */
  function PulsePeak(samples: seq<real>, troughs: seq<int>, i: int): (p: real)
    requires ValidTroughs(troughs, |samples|)
    requires 0 <= i < |troughs| - 1
    ensures p in Segment(samples, troughs, i)
    ensures forall j :: troughs[i] - 1 <= j <= troughs[i + 1] ==> samples[j] <= p
  {
    Max(Segment(samples, troughs, i))
  }

  /**
   * What `find_ACDC` returns as (ac_values, dc_values): per pulse, DC is the
   * floor of the segment and DC + AC its peak.
   */
  function AcDcOf(samples: seq<real>, troughs: seq<int>): (m: Measurement)
    requires ValidTroughs(troughs, |samples|)
    ensures |m.ac| == |m.dc| == PulseCount(troughs)
    ensures forall i :: 0 <= i < |m.dc| ==>
      && m.dc[i] in Segment(samples, troughs, i)
      && m.dc[i] + m.ac[i] in Segment(samples, troughs, i)
      && 0.0 <= m.ac[i]
    ensures forall i, j :: 0 <= i < |m.dc| && troughs[i] - 1 <= j <= troughs[i + 1] ==>
      m.dc[i] <= samples[j] <= m.dc[i] + m.ac[i]
    ensures NonNegative(samples) ==> forall i :: 0 <= i < |m.dc| ==> 0.0 <= m.dc[i]
  {
    var m := Measurement(Swings(samples, troughs), Floors(samples, troughs));
    FloorsAndSwingsBound(samples, troughs, m);
    m
  }

  /** The DC list: the floor of every pulse. */
  function Floors(samples: seq<real>, troughs: seq<int>): (f: seq<real>)
    requires ValidTroughs(troughs, |samples|)
    ensures |f| == PulseCount(troughs)
    ensures forall k :: 0 <= k < |f| ==> f[k] == PulseFloor(samples, troughs, k)
  {
    var n := PulseCount(troughs);
    seq(n, k requires 0 <= k < n => PulseFloor(samples, troughs, k))
  }

  /** The AC list: the peak minus the floor of every pulse. */
  function Swings(samples: seq<real>, troughs: seq<int>): (w: seq<real>)
    requires ValidTroughs(troughs, |samples|)
    ensures |w| == PulseCount(troughs)
    ensures forall k :: 0 <= k < |w| ==> w[k] == PulsePeak(samples, troughs, k) - PulseFloor(samples, troughs, k)
  {
    var n := PulseCount(troughs);
    seq(n, k requires 0 <= k < n => PulsePeak(samples, troughs, k) - PulseFloor(samples, troughs, k))
  }

  /** Per-pulse floors and swings bracket their segments. */
  lemma FloorsAndSwingsBound(samples: seq<real>, troughs: seq<int>, m: Measurement)
    requires ValidTroughs(troughs, |samples|)
    requires |m.ac| == |m.dc| == PulseCount(troughs)
    requires forall k :: 0 <= k < |m.dc| ==>
      m.dc[k] == PulseFloor(samples, troughs, k)
      && m.ac[k] == PulsePeak(samples, troughs, k) - PulseFloor(samples, troughs, k)
    ensures forall i :: 0 <= i < |m.dc| ==>
      && m.dc[i] in Segment(samples, troughs, i)
      && m.dc[i] + m.ac[i] in Segment(samples, troughs, i)
      && 0.0 <= m.ac[i]
    ensures forall i, j :: 0 <= i < |m.dc| && troughs[i] - 1 <= j <= troughs[i + 1] ==>
      m.dc[i] <= samples[j] <= m.dc[i] + m.ac[i]
    ensures NonNegative(samples) ==> forall i :: 0 <= i < |m.dc| ==> 0.0 <= m.dc[i]
  {
    forall i | 0 <= i < |m.dc|
      ensures m.dc[i] in Segment(samples, troughs, i)
      ensures m.dc[i] + m.ac[i] in Segment(samples, troughs, i)
      ensures 0.0 <= m.ac[i]
    {
      var lo := PulseFloor(samples, troughs, i);
      var hi := PulsePeak(samples, troughs, i);
      assert samples[troughs[i]] <= hi && lo <= samples[troughs[i]];
    }
    if NonNegative(samples) {
      forall i | 0 <= i < |m.dc| ensures 0.0 <= m.dc[i] {
        var seg := Segment(samples, troughs, i);
        var lo := PulseFloor(samples, troughs, i);
        assert lo == seg[0] || exists k :: 0 < k < |seg| && lo == seg[k];
      }
    }
  }

  /**
   * A trace of positive samples whose pulse segments are not flat yields
   * AC and DC values that can all serve as ratio denominators.
   */
  lemma UsableWhenPositiveAndNonFlat(samples: seq<real>, troughs: seq<int>)
    requires ValidTroughs(troughs, |samples|)
    requires Positive(samples) && NonFlat(samples, troughs)
    ensures Usable(AcDcOf(samples, troughs))
  {
    var m := AcDcOf(samples, troughs);
    forall i | 0 <= i < |m.dc|
      ensures 0.0 < m.ac[i] && 0.0 < m.dc[i]
    {
      assert m.dc[i] == PulseFloor(samples, troughs, i);
      assert m.ac[i] == PulsePeak(samples, troughs, i) - PulseFloor(samples, troughs, i);
    }
  }

  /** Lists holding the floor and the swing of every pulse are exactly `AcDcOf`. */
  lemma AcDcOfFromEntries(samples: seq<real>, troughs: seq<int>, ac: seq<real>, dc: seq<real>)
    requires ValidTroughs(troughs, |samples|)
    requires |ac| == |dc| == PulseCount(troughs)
    requires forall k :: 0 <= k < |dc| ==>
      dc[k] == PulseFloor(samples, troughs, k)
      && ac[k] == PulsePeak(samples, troughs, k) - PulseFloor(samples, troughs, k)
    ensures Measurement(ac, dc) == AcDcOf(samples, troughs)
  {
    assert dc == Floors(samples, troughs);
    assert ac == Swings(samples, troughs);
    assert AcDcOf(samples, troughs) == Measurement(Swings(samples, troughs), Floors(samples, troughs));
  }

  /** One pass of the loop body of `find_ACDC`: slice pulse i and take its min and max. */
  method MeasurePulse(samples: seq<real>, troughs: seq<int>, i: int) returns (ac: real, dc: real)
    requires ValidTroughs(troughs, |samples|)
    requires 0 <= i < |troughs| - 1
    ensures dc == PulseFloor(samples, troughs, i)
    ensures ac == PulsePeak(samples, troughs, i) - PulseFloor(samples, troughs, i)
  {
    var slice := samples[troughs[i] - 1 .. troughs[i + 1] + 1];
    assert slice == Segment(samples, troughs, i);
    dc := Min(slice);
    ac := Max(slice) - Min(slice);
  }

  /** The loop of `find_ACDC` that appends one DC and one AC value per trough pair. */
  method ExtractAcDc(samples: seq<real>, troughs: seq<int>) returns (ac: seq<real>, dc: seq<real>)
    requires ValidTroughs(troughs, |samples|)
    ensures Measurement(ac, dc) == AcDcOf(samples, troughs)
  {
    ac, dc := [], [];
    var i := 0;
    while i < |troughs| - 1
      invariant 0 <= i <= PulseCount(troughs)
      invariant |dc| == i && |ac| == i
      invariant forall k :: 0 <= k < i ==>
        dc[k] == PulseFloor(samples, troughs, k)
        && ac[k] == PulsePeak(samples, troughs, k) - PulseFloor(samples, troughs, k)
    {
      var pulseAc, pulseDc := MeasurePulse(samples, troughs, i);
      dc := dc + [pulseDc];
      ac := ac + [pulseAc];
      i := i + 1;
    }
    AcDcOfFromEntries(samples, troughs, ac, dc);
  }
}
