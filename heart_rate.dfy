/**
 * The heart-rate rule of `find_ACDC`: 60 seconds divided by the longest gap
 * between consecutive peak times, stored in one slot of the two-slot
 * `heart_rates` list.
 *
 * The peak times are an input: `find_peaks` returns increasing indices and
 * the time axis is increasing, so the times are strictly increasing.
 */
module HeartRate {
  import opened Optional
  import opened Stats

  predicate StrictlyIncreasing(ts: seq<real>)
  {
    forall i :: 0 <= i < |ts| - 1 ==> ts[i] < ts[i + 1]
  }

  /** The comprehension `peak_intervals`: one gap per consecutive pair of peaks. */
  function Intervals(ts: seq<real>): (gaps: seq<real>)
    ensures |gaps| == if |ts| < 2 then 0 else |ts| - 1
    ensures forall i :: 0 <= i < |gaps| ==> ts[i] + gaps[i] == ts[i + 1]
    ensures StrictlyIncreasing(ts) ==> forall i :: 0 <= i < |gaps| ==> 0.0 < gaps[i]
  {
    var n := if |ts| < 2 then 0 else |ts| - 1;
    seq(n, i requires 0 <= i < n => ts[i + 1] - ts[i])
  }

  /**
   * `60 / max(peak_intervals)`; None where `max` of the empty interval list
   * raises, that is for fewer than two peaks.
   */
  function HeartRateOf(ts: seq<real>): (hr: Option<real>)
    requires StrictlyIncreasing(ts)
    ensures hr.None? <==> |ts| < 2
    ensures hr.Some? ==> 0.0 < hr.value && 60.0 / hr.value in Intervals(ts)
  {
    if |ts| < 2 then None
    else
      var longest := Max(Intervals(ts));
      RateOfRate(longest);
      Some(60.0 / longest)
  }

  lemma RateOfRate(gap: real)
    requires 0.0 < gap
    ensures 0.0 < 60.0 / gap && 60.0 / (60.0 / gap) == gap
  {
    var rate := 60.0 / gap;
    assert rate * gap == 60.0;
    assert 60.0 / rate * rate == 60.0;
  }

  lemma ReciprocalAntitone(a: real, b: real)
    requires 0.0 < a <= b
    ensures 60.0 / b <= 60.0 / a
  {
    assert 60.0 / b * b == 60.0;
    assert 60.0 / a * a == 60.0;
    assert 60.0 / b * a <= 60.0 / b * b;
  }

  /**
   * The rate is that of the slowest beat: it never exceeds the rate that any
   * single pair of consecutive peaks would give.
   */
  lemma HeartRateIsSlowestBeat(ts: seq<real>)
    requires StrictlyIncreasing(ts) && 2 <= |ts|
    ensures forall i :: 0 <= i < |ts| - 1 ==> HeartRateOf(ts).value <= 60.0 / (ts[i + 1] - ts[i])
  {
    var gaps := Intervals(ts);
    forall i | 0 <= i < |ts| - 1
      ensures HeartRateOf(ts).value <= 60.0 / (ts[i + 1] - ts[i])
    {
      assert gaps[i] == ts[i + 1] - ts[i];
      ReciprocalAntitone(gaps[i], Max(gaps));
    }
  }

  /** Peaks at 0, 1, 2 and 5 seconds give 60 / 3 = 20 beats per minute, not 60 / mean. */
  lemma LongestGapExample()
    ensures HeartRateOf([0.0, 1.0, 2.0, 5.0]) == Some(20.0)
  {
    var ts := [0.0, 1.0, 2.0, 5.0];
    assert Intervals(ts) == [1.0, 1.0, 3.0];
    assert Max([3.0]) == 3.0;
    assert [1.0, 3.0][1..] == [3.0];
    assert Max([1.0, 3.0]) == 3.0;
    assert [1.0, 1.0, 3.0][1..] == [1.0, 3.0];
    assert Max([1.0, 1.0, 3.0]) == 3.0;
  }

  /** `index = indicator == "red"`: red writes slot 1, every other indicator slot 0. */
  function Slot(indicator: string): (k: nat)
    ensures k < 2
    ensures k == 1 <==> indicator == "red"
  {
    if indicator == "red" then 1 else 0
  }
}
