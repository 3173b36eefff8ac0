/**
 * The server's module-level state (`r_value`, `heart_rates`, `red_AC`/`red_DC`,
 * `ir_AC`/`ir_DC`, `count`) and the two request handlers that use it:
 * `handle_data` (Submit) and `send_oxygenation_and_hr` (Retrieve).
 *
 * `State` and `Step` give the pure meaning of one request; the class
 * `Oximeter` holds the same state in fields and is proved to follow `Step`.
 * Each request is one atomic step.
 */
module Server {
  import opened Optional
  import opened Stats
  import opened Pulses
  import opened HeartRate
  import opened Ratio
  import opened Calibration

  /** What the filter and `find_peaks` deliver for one submitted trace. */
  datatype Trace = Trace(samples: seq<real>, peakTimes: seq<real>, troughs: seq<int>)

  datatype Submission = Submission(indicator: string, trace: Trace)

  datatype Error =
    | InsufficientPeaks   // `max()` of an empty interval list raises ValueError
    | MissingChannel      // `len(None)` in `calculate_r` raises TypeError

  datatype Outcome = Ok | Failed(error: Error)

  /**
   * A trace as the extraction receives it. The positive samples and the
   * non-flat pulse segments keep every ratio denominator non-zero.
   */
  predicate WellFormed(t: Trace)
  {
    && StrictlyIncreasing(t.peakTimes)
    && ValidTroughs(t.troughs, |t.samples|)
    && Positive(t.samples)
    && NonFlat(t.samples, t.troughs)
  }

  predicate IsChannel(indicator: string)
  {
    indicator == "red" || indicator == "ir"
  }

  /** Only the red and infrared traces are processed; others are never looked at. */
  predicate Admissible(sub: Submission)
  {
    IsChannel(sub.indicator) ==> WellFormed(sub.trace)
  }

  predicate AllAdmissible(subs: seq<Submission>)
  {
    forall i :: 0 <= i < |subs| ==> Admissible(subs[i])
  }

  /** The globals; a channel that never arrived is None, and a NaN R is None. */
  datatype State = State(
    count: nat,
    red: Option<Measurement>,
    ir: Option<Measurement>,
    rValue: Option<real>,
    heartRates: seq<real>)

  predicate Consistent(s: State)
  {
    && |s.heartRates| == 2
    && (s.red.Some? ==> Usable(s.red.value))
    && (s.ir.Some? ==> Usable(s.ir.value))
  }

  lemma AdmissibleTriple(a: Submission, b: Submission, c: Submission)
    requires Admissible(a) && Admissible(b) && Admissible(c)
    ensures AllAdmissible([a, b, c]) && AllAdmissible([b, c]) && AllAdmissible([c])
  {
    forall i | 0 <= i < 3 ensures Admissible([a, b, c][i]) {
      if i == 1 { assert [a, b, c][i] == b; } else if i == 2 { assert [a, b, c][i] == c; }
    }
  }

  /** The values the globals have when the server starts. */
  function Initial(): State
  {
    State(0, None, None, Some(0.0), [0.0, 0.0])
  }

  /**
   * The indicator branch of `handle_data`: a red or infrared trace runs the
   * extraction, overwrites that channel's measurement, records the heart
   * rate and counts the submission; any other indicator changes nothing.
   * None when the extraction raises for want of two peaks.
   */
  function Ingest(s: State, sub: Submission): (r: Option<State>)
    requires Consistent(s) && Admissible(sub)
    ensures r.None? <==> IsChannel(sub.indicator) && |sub.trace.peakTimes| < 2
    ensures r.Some? ==> Consistent(r.value) && r.value.rValue == s.rValue
    ensures r.Some? ==> r.value.count == if IsChannel(sub.indicator) then s.count + 1 else s.count
    ensures r.Some? && sub.indicator != "red" ==> r.value.red == s.red && r.value.heartRates[1] == s.heartRates[1]
    ensures r.Some? && sub.indicator != "ir" ==> r.value.ir == s.ir && r.value.heartRates[0] == s.heartRates[0]
    ensures r.Some? && sub.indicator == "red" ==>
      r.value.red == Some(AcDcOf(sub.trace.samples, sub.trace.troughs))
      && r.value.heartRates[1] == HeartRateOf(sub.trace.peakTimes).value
    ensures r.Some? && sub.indicator == "ir" ==>
      r.value.ir == Some(AcDcOf(sub.trace.samples, sub.trace.troughs))
      && r.value.heartRates[0] == HeartRateOf(sub.trace.peakTimes).value
  {
    if !IsChannel(sub.indicator) then Some(s)
    else
      match HeartRateOf(sub.trace.peakTimes)
      case None => None
      case Some(hr) =>
        UsableWhenPositiveAndNonFlat(sub.trace.samples, sub.trace.troughs);
        Some(Stored(s, sub.indicator, AcDcOf(sub.trace.samples, sub.trace.troughs), hr))
  }

  /** The globals after a channel's measurement and heart rate are stored and counted. */
  function Stored(s: State, indicator: string, m: Measurement, hr: real): State
    requires |s.heartRates| == 2
  {
    var rates := s.heartRates[Slot(indicator) := hr];
    if indicator == "red" then s.(red := Some(m), heartRates := rates, count := s.count + 1)
    else s.(ir := Some(m), heartRates := rates, count := s.count + 1)
  }

  /**
   * The tail of `handle_data`: at a count of 2 the ratio is computed from
   * whatever red and infrared data are stored and the count resets; if a
   * channel was never stored, `calculate_r` raises and the count stays at 2.
   */
  function Pair(s: State): (r: (State, Outcome))
    requires Consistent(s)
    ensures Consistent(r.0)
    ensures s.count != 2 ==> r == (s, Ok)
    ensures s.count == 2 && (s.red.None? || s.ir.None?) ==> r == (s, Failed(MissingChannel))
    ensures s.count == 2 && s.red.Some? && s.ir.Some? ==>
      && r.1 == Ok
      && r.0 == s.(count := 0, rValue := CalculateR(s.red.value, s.ir.value))
  {
    if s.count != 2 then (s, Ok)
    else if s.red.None? || s.ir.None? then (s, Failed(MissingChannel))
    else
      PositiveMeasurementsGivePositiveR(s.red.value, s.ir.value);
      (s.(count := 0, rValue := CalculateR(s.red.value, s.ir.value)), Ok)
  }

  /**
   * One `handle_data` request. A failed extraction raises before anything
   * is stored; a failed `calculate_r` raises after the channel and the count
   * were already updated, and those updates stay.
   */
  function Step(s: State, sub: Submission): (r: (State, Outcome))
    requires Consistent(s) && Admissible(sub)
    ensures Consistent(r.0)
    ensures r.1 == Failed(InsufficientPeaks) <==> IsChannel(sub.indicator) && |sub.trace.peakTimes| < 2
    ensures r.1 == Failed(InsufficientPeaks) ==> r.0 == s
    ensures r.0.rValue != s.rValue ==> r.1 == Ok && r.0.count == 0
  {
    match Ingest(s, sub)
    case None => (s, Failed(InsufficientPeaks))
    case Some(s1) => Pair(s1)
  }

  /** A sequence of requests, one after the other. */
  function Run(s: State, subs: seq<Submission>): (t: State)
    requires Consistent(s) && AllAdmissible(subs)
    ensures Consistent(t)
    decreases |subs|
  {
    if subs == [] then s else Run(Step(s, subs[0]).0, subs[1..])
  }

  /** One step keeps the count in {0, 1} once both channels have arrived. */
  lemma StepKeepsCountBelowTwo(s: State, sub: Submission)
    requires Consistent(s) && Admissible(sub)
    requires s.count <= 1 && s.red.Some? && s.ir.Some?
    ensures var t := Step(s, sub).0; t.count <= 1 && t.red.Some? && t.ir.Some?
  {
    var i := Ingest(s, sub);
    if i.Some? {
      assert i.value.red.Some? && i.value.ir.Some?;
    }
  }

  /**
   * Once both channels have been stored, the count stays in {0, 1} between
   * requests, whatever is submitted.
   */
  lemma {:induction false} CountStaysBelowTwo(s: State, subs: seq<Submission>)
    requires Consistent(s) && AllAdmissible(subs)
    requires s.count <= 1 && s.red.Some? && s.ir.Some?
    ensures var t := Run(s, subs); t.count <= 1 && t.red.Some? && t.ir.Some?
    decreases |subs|
  {
    if subs != [] {
      StepKeepsCountBelowTwo(s, subs[0]);
      CountStaysBelowTwo(Step(s, subs[0]).0, subs[1..]);
    }
  }

  /**
   * A red and then an infrared submission complete a pair: R becomes the
   * ratio of the two new measurements and the count is back to 0.
   */
  lemma RedThenInfraredComputesR(s: State, red: Submission, ir: Submission)
    requires Consistent(s) && s.count == 0
    requires red.indicator == "red" && WellFormed(red.trace) && 2 <= |red.trace.peakTimes|
    requires ir.indicator == "ir" && WellFormed(ir.trace) && 2 <= |ir.trace.peakTimes|
    ensures var mr := AcDcOf(red.trace.samples, red.trace.troughs);
      var mi := AcDcOf(ir.trace.samples, ir.trace.troughs);
      var t := Step(Step(s, red).0, ir);
      && Usable(mr) && Usable(mi)
      && t.1 == Ok && t.0.count == 0
      && t.0.red == Some(mr) && t.0.ir == Some(mi)
      && t.0.rValue == CalculateR(mr, mi)
  {
    var mr := AcDcOf(red.trace.samples, red.trace.troughs);
    var mi := AcDcOf(ir.trace.samples, ir.trace.troughs);
    UsableWhenPositiveAndNonFlat(red.trace.samples, red.trace.troughs);
    UsableWhenPositiveAndNonFlat(ir.trace.samples, ir.trace.troughs);
    var s1 := Ingest(s, red).value;
    assert s1.count == 1 && s1.red == Some(mr);
    assert Step(s, red).0 == s1;
    var s2 := Ingest(s1, ir).value;
    assert s2.count == 2 && s2.red == Some(mr) && s2.ir == Some(mi);
    PositiveMeasurementsGivePositiveR(mr, mi);
  }

  /**
   * The count counts submissions, not channels: two red submissions in a row
   * complete a "pair" and compute R from the new red data and the infrared
   * data stored earlier.
   */
  lemma SameChannelTwiceUsesStaleData(s: State, a: Submission, b: Submission)
    requires Consistent(s) && s.count == 0 && s.red.Some? && s.ir.Some?
    requires a.indicator == "red" && WellFormed(a.trace) && 2 <= |a.trace.peakTimes|
    requires b.indicator == "red" && WellFormed(b.trace) && 2 <= |b.trace.peakTimes|
    ensures var mb := AcDcOf(b.trace.samples, b.trace.troughs);
      var t := Step(Step(s, a).0, b);
      && Usable(mb)
      && t.1 == Ok && t.0.count == 0 && t.0.ir == s.ir
      && t.0.rValue == CalculateR(mb, s.ir.value)
  {
    UsableWhenPositiveAndNonFlat(b.trace.samples, b.trace.troughs);
    PositiveMeasurementsGivePositiveR(AcDcOf(b.trace.samples, b.trace.troughs), s.ir.value);
  }

  /**
   * A count stuck at 2 with a channel missing, or past 2: `count == 2` can
   * never hold again with both channels present.
   */
  predicate Jammed(s: State)
  {
    s.count >= 3 || (s.count == 2 && (s.red.None? || s.ir.None?))
  }

  /**
   * Two red submissions before any infrared one: the second raises in
   * `calculate_r` and leaves the count at 2.
   */
  lemma TwoRedsFirstJamTheCount(a: Submission, b: Submission)
    requires a.indicator == "red" && WellFormed(a.trace) && 2 <= |a.trace.peakTimes|
    requires b.indicator == "red" && WellFormed(b.trace) && 2 <= |b.trace.peakTimes|
    ensures var t := Step(Step(Initial(), a).0, b);
      t.1 == Failed(MissingChannel) && t.0.count == 2 && Jammed(t.0)
  {
  }

  /** From a jammed count no request ever updates R again. */
  lemma {:induction false} JammedNeverRecovers(s: State, subs: seq<Submission>)
    requires Consistent(s) && AllAdmissible(subs) && Jammed(s)
    ensures Jammed(Run(s, subs)) && Run(s, subs).rValue == s.rValue
    decreases |subs|
  {
    if subs != [] {
      var t := Step(s, subs[0]).0;
      assert Jammed(t) && t.rValue == s.rValue;
      JammedNeverRecovers(t, subs[1..]);
    }
  }

  /**
   * Two red submissions at start-up freeze R at its initial 0 for the rest
   * of the server's life, whatever arrives afterwards.
   */
  lemma TwoRedsFirstFreezeR(a: Submission, b: Submission, rest: seq<Submission>)
    requires a.indicator == "red" && WellFormed(a.trace) && 2 <= |a.trace.peakTimes|
    requires b.indicator == "red" && WellFormed(b.trace) && 2 <= |b.trace.peakTimes|
    requires AllAdmissible(rest)
    ensures AllAdmissible([a, b] + rest)
    ensures Run(Initial(), [a, b] + rest).rValue == Some(0.0)
  {
    var subs := [a, b] + rest;
    assert subs[1..] == [b] + rest && subs[1..][1..] == rest;
    TwoRedsFirstJamTheCount(a, b);
    JammedNeverRecovers(Step(Step(Initial(), a).0, b).0, rest);
  }

  /**
   * The corrected request: a request that raises leaves every global as it
   * was, so a missing channel no longer leaves the count at 2.
   */
  function StepRollingBack(s: State, sub: Submission): (r: (State, Outcome))
    requires Consistent(s) && Admissible(sub)
    ensures Consistent(r.0)
    ensures r.1.Failed? ==> r.0 == s
    ensures r.1 == Ok ==> r == Step(s, sub)
    ensures s.count <= 1 ==> r.0.count <= 1
  {
    var t := Step(s, sub);
    if t.1.Failed? then (s, t.1) else t
  }

  function RunRollingBack(s: State, subs: seq<Submission>): (t: State)
    requires Consistent(s) && AllAdmissible(subs)
    ensures Consistent(t)
    decreases |subs|
  {
    if subs == [] then s else RunRollingBack(StepRollingBack(s, subs[0]).0, subs[1..])
  }

  /** With roll-back the count stays in {0, 1} from start-up on, for every request sequence. */
  lemma {:induction false} RollingBackKeepsCountBelowTwo(s: State, subs: seq<Submission>)
    requires Consistent(s) && AllAdmissible(subs) && s.count <= 1
    ensures RunRollingBack(s, subs).count <= 1
    decreases |subs|
  {
    if subs != [] {
      RollingBackKeepsCountBelowTwo(StepRollingBack(s, subs[0]).0, subs[1..]);
    }
  }

  /**
   * With roll-back, the two red submissions that froze R no longer do: the
   * second is refused, and the next infrared submission completes a pair
   * with the first.
   */
  lemma RollingBackRecoversFromTwoReds(a: Submission, b: Submission, c: Submission)
    requires a.indicator == "red" && WellFormed(a.trace) && 2 <= |a.trace.peakTimes|
    requires b.indicator == "red" && WellFormed(b.trace) && 2 <= |b.trace.peakTimes|
    requires c.indicator == "ir" && WellFormed(c.trace) && 2 <= |c.trace.peakTimes|
    ensures AllAdmissible([a, b, c])
    ensures var ma := AcDcOf(a.trace.samples, a.trace.troughs);
      var mc := AcDcOf(c.trace.samples, c.trace.troughs);
      var t := RunRollingBack(Initial(), [a, b, c]);
      && Usable(ma) && Usable(mc)
      && t.count == 0 && t.red == Some(ma) && t.ir == Some(mc)
      && t.rValue == CalculateR(ma, mc)
  {
    var ma := AcDcOf(a.trace.samples, a.trace.troughs);
    var mc := AcDcOf(c.trace.samples, c.trace.troughs);
    UsableWhenPositiveAndNonFlat(a.trace.samples, a.trace.troughs);
    UsableWhenPositiveAndNonFlat(c.trace.samples, c.trace.troughs);
    var s1 := Stored(Initial(), "red", ma, HeartRateOf(a.trace.peakTimes).value);
    assert Ingest(Initial(), a) == Some(s1);
    assert StepRollingBack(Initial(), a).0 == s1;
    assert StepRollingBack(s1, b).0 == s1;
    var s3 := Stored(s1, "ir", mc, HeartRateOf(c.trace.peakTimes).value);
    assert Ingest(s1, c) == Some(s3);
    PositiveMeasurementsGivePositiveR(ma, mc);
    assert StepRollingBack(s1, c).0 == s3.(count := 0, rValue := CalculateR(ma, mc));
    RunRollingBackThree(Initial(), a, b, c);
  }

  lemma RunRollingBackThree(s: State, a: Submission, b: Submission, c: Submission)
    requires Consistent(s) && Admissible(a) && Admissible(b) && Admissible(c)
    ensures AllAdmissible([a, b, c])
    ensures RunRollingBack(s, [a, b, c]) ==
      StepRollingBack(StepRollingBack(StepRollingBack(s, a).0, b).0, c).0
  {
    AdmissibleTriple(a, b, c);
    var s1 := StepRollingBack(s, a).0;
    var s2 := StepRollingBack(s1, b).0;
    var s3 := StepRollingBack(s2, c).0;
    assert [c][1..] == [];
    assert RunRollingBack(s2, [c]) == s3;
    assert [b, c][1..] == [c];
    assert RunRollingBack(s1, [b, c]) == s3;
    assert [a, b, c][1..] == [b, c];
  }

  /**
   * What `send_oxygenation_and_hr` answers: the calibration curve at R
   * (undefined when R is NaN) and `np.mean` of the two heart-rate slots.
   */
  function Report(s: State): (r: (Option<real>, real))
    requires Consistent(s)
    ensures r.0.Some? <==> s.rValue.Some?
    ensures r.0.Some? ==> r.0.value == SpO2(s.rValue.value) && r.0.value < 100.0
    ensures r.1 == (s.heartRates[0] + s.heartRates[1]) / 2.0
  {
    assert s.heartRates == [s.heartRates[0], s.heartRates[1]];
    MeanOfTwo(s.heartRates[0], s.heartRates[1]);
    if s.rValue.Some? then SpO2BelowHundred(s.rValue.value); (Some(SpO2(s.rValue.value)), Mean(s.heartRates))
    else (None, Mean(s.heartRates))
  }

  /** Before any pairing the answer is the placeholder SpO2 96.06 with heart rate 0. */
  lemma InitialReport()
    ensures Report(Initial()) == (Some(96.06), 0.0)
  {
  }

  /** The module globals of the server, updated in place by each request. */
  class Oximeter {
    var count: nat
    var red: Option<Measurement>
    var ir: Option<Measurement>
    var rValue: Option<real>
    const heartRates: array<real>

    function Snapshot(): State
      reads this, heartRates
    {
      State(count, red, ir, rValue, heartRates[..])
    }

    ghost predicate Valid()
      reads this, heartRates
    {
      Consistent(Snapshot())
    }

    constructor ()
      ensures Valid() && fresh(heartRates)
      ensures Snapshot() == Initial()
    {
      count := 0;
      red := None;
      ir := None;
      rValue := Some(0.0);
      heartRates := new real[2](_ => 0.0);
      new;
      assert heartRates[..] == [0.0, 0.0];
    }

    /**
     * `find_ACDC` after the filter: the heart rate from the longest peak gap
     * goes into slot `indicator == "red"`, then the AC/DC loop runs. With
     * fewer than two peaks it raises before writing anything.
     */
    method FindAcDc(trace: Trace, indicator: string) returns (m: Option<Measurement>)
      requires Valid() && WellFormed(trace)
      modifies heartRates
      ensures Valid()
      ensures |trace.peakTimes| < 2 ==> m.None? && heartRates[..] == old(heartRates[..])
      ensures 2 <= |trace.peakTimes| ==>
        && m == Some(AcDcOf(trace.samples, trace.troughs))
        && heartRates[Slot(indicator)] == HeartRateOf(trace.peakTimes).value
        && heartRates[1 - Slot(indicator)] == old(heartRates[1 - Slot(indicator)])
    {
      var hr := HeartRateOf(trace.peakTimes);
      if hr.None? {
        return None;
      }
      heartRates[Slot(indicator)] := hr.value;
      var ac, dc := ExtractAcDc(trace.samples, trace.troughs);
      m := Some(Measurement(ac, dc));
    }

    /**
     * The indicator branch of `handle_data` (`Ingest`): false, with nothing
     * written, when the extraction raises for want of two peaks.
     */
    method Store(sub: Submission) returns (stored: bool)
      requires Valid() && Admissible(sub)
      modifies this, heartRates
      ensures Valid()
      ensures stored <==> Ingest(old(Snapshot()), sub).Some?
      ensures stored ==> Snapshot() == Ingest(old(Snapshot()), sub).value
      ensures !stored ==> Snapshot() == old(Snapshot())
    {
      ghost var s := Snapshot();
      stored := true;
      if sub.indicator == "red" {
        var m := FindAcDc(sub.trace, "red");
        if m.None? {
          return false;
        }
        red := m;
        count := count + 1;
        ghost var t := Stored(s, "red", m.value, HeartRateOf(sub.trace.peakTimes).value);
        assert heartRates[..] == t.heartRates;
        assert Ingest(s, sub) == Some(t);
      } else if sub.indicator == "ir" {
        var m := FindAcDc(sub.trace, "ir");
        if m.None? {
          return false;
        }
        ir := m;
        count := count + 1;
        ghost var t := Stored(s, "ir", m.value, HeartRateOf(sub.trace.peakTimes).value);
        assert heartRates[..] == t.heartRates;
        assert Ingest(s, sub) == Some(t);
      } else {
        assert Ingest(s, sub) == Some(s);
      }
    }

    /** The tail of `handle_data` (`Pair`): compute R and reset the count at a count of 2. */
    method PairInPlace() returns (outcome: Outcome)
      requires Valid()
      modifies this
      ensures Valid()
      ensures (Snapshot(), outcome) == Pair(old(Snapshot()))
    {
      if count == 2 {
        if red.None? || ir.None? {
          return Failed(MissingChannel);
        }
        PositiveMeasurementsGivePositiveR(red.value, ir.value);
        rValue := CalculateR(red.value, ir.value);
        count := 0;
      }
      return Ok;
    }

    /** `handle_data`. */
    method Submit(sub: Submission) returns (outcome: Outcome)
      requires Valid() && Admissible(sub)
      modifies this, heartRates
      ensures Valid()
      ensures (Snapshot(), outcome) == Step(old(Snapshot()), sub)
    {
      var stored := Store(sub);
      if !stored {
        return Failed(InsufficientPeaks);
      }
      outcome := PairInPlace();
    }

    /** `send_oxygenation_and_hr`; it reads the globals and changes none. */
    method Retrieve() returns (spo2: Option<real>, hr: real)
      requires Valid()
      ensures (spo2, hr) == Report(Snapshot())
    {
      spo2 := if rValue.Some? then Some(SpO2(rValue.value)) else None;
      hr := Mean(heartRates[..]);
    }
  }
}
