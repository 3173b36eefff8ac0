# Pulse oximeter server — a Dafny model

The server takes red and infrared photoplethysmography (PPG) traces from a sensor client. It turns each trace into per-pulse AC and DC values and a heart rate. Once a pair of traces has arrived, it computes the ratio of ratios R. On request it answers with the oxygen saturation and the mean heart rate.

The model has one module per stage of that pipeline:

- `Stats`: sum, mean, population variance, minimum and maximum of a sequence of reals, with their basic bounds.
- `Pulses`: the AC/DC loop of `find_ACDC`, over the filtered trace and its trough indices.
  - `AcDcOf` is the specification.
  - `ExtractAcDc` is the loop, proved against that specification.
- `HeartRate`: 60 divided by the longest gap between consecutive peak times. Also the slot (`indicator == "red"`) in which that rate is stored.
- `Ratio`: `calculate_r`.
  - Truncation to the shorter channel.
  - One ratio of ratios per pulse.
  - The one-standard-deviation outlier filter.
  - The mean of the values the filter keeps.
- `Calibration`: the quadratic saturation curve.
- `Server`: the module globals and the two request handlers.
  - `State`, `Step` and `Report` give the meaning of one request as pure functions.
  - The class `Oximeter` keeps the same globals in fields, with the two-slot heart-rate list as an array. Its `Submit` and `Retrieve` are proved to follow `Step` and `Report`.

Modelling conventions:

- Samples and times are mathematical reals.
- The band-pass filter and `find_peaks` are not modelled. A submission carries the filtered samples, the peak times and the trough indices those steps produce (`Server.Trace`). The troughs are increasing, inside the trace and never its first sample.
- A NaN R is `None`.
- The filtered samples are positive and no pulse segment is flat (`Server.WellFormed`). This keeps every ratio denominator non-zero.
- A request that raises is a `Failed` outcome. Python propagates the exception out of `handle_data`, and every global assigned before the raise keeps its new value.

Behaviours of the code that are easy to misread:

- A pulse segment runs from one sample before trough i up to and including trough i + 1. The slice end `troughs[i + 1] + 1` is exclusive, so the segment does not extend one sample past trough i + 1.
- When no ratio survives the outlier filter, `np.mean([])` stores NaN in `r_value`. The previous R is not kept.
- A request that fails in `calculate_r` does not leave the state unchanged. The channel and the count it updated stay updated (see Findings).
- At R = 0.4 the curve gives 99.4928 (`Calibration.SpO2AtPointFour`).

## Model

| member | source | states |
|---|---|---|
| Stats.Min | pulse_oximeter_server.py:90 | `min(slice)`: an element of the sequence that is no greater than any element |
| Stats.Max | pulse_oximeter_server.py:91 | `max(slice)`: an element of the sequence that is no less than any element |
| Stats.Mean | pulse_oximeter_server.py:121 | `np.mean` of a non-empty list: sum over length; its bounds are stated by `MeanBetweenExtremes` |
| Stats.Variance | pulse_oximeter_server.py:119 | the population variance (`np.std` squared): mean squared deviation from the mean; stated by `VarianceNonNegative` and `ConstantHasZeroVariance` |
| Stats.MeanBetweenExtremes | pulse_oximeter_server.py:121 | the mean of a non-empty sequence lies between its minimum and its maximum |
| Stats.VarianceNonNegative | pulse_oximeter_server.py:119 | the population variance behind `np.std` is never negative |
| Stats.ConstantHasZeroVariance | pulse_oximeter_server.py:119-120 | a constant sequence has that constant as its mean and zero variance |
| Stats.MeanOfTwo | pulse_oximeter_server.py:131 | `np.mean` of a two-element list is half the sum of the two |
| Pulses.Segment | pulse_oximeter_server.py:89 | the slice of pulse i has length `troughs[i+1] - troughs[i] + 2`, and its entries are the samples from `troughs[i] - 1` through `troughs[i+1]` in order |
| Pulses.AcDcOf | pulse_oximeter_server.py:86-93 | one AC and one DC value per adjacent trough pair (none for fewer than two troughs); DC and DC + AC are samples of the segment; every segment sample lies between them; AC is non-negative; DC is non-negative for non-negative samples |
| Pulses.UsableWhenPositiveAndNonFlat | pulse_oximeter_server.py:86-93 | positive samples and non-flat segments give strictly positive AC and DC values |
| Pulses.MeasurePulse | pulse_oximeter_server.py:89-91 | one loop pass yields exactly the DC and AC of pulse i |
| Pulses.ExtractAcDc | pulse_oximeter_server.py:86-93 | the loop builds exactly the AC and DC lists of `AcDcOf` |
| HeartRate.Intervals | pulse_oximeter_server.py:79 | one gap per consecutive pair of peaks, each being the difference of the two times; the gaps are positive for increasing times |
| HeartRate.HeartRateOf | pulse_oximeter_server.py:79-81 | undefined exactly when there are fewer than two peaks (the `max` of an empty list raises); otherwise positive, and 60 divided by it is one of the gaps |
| HeartRate.HeartRateIsSlowestBeat | pulse_oximeter_server.py:79-81 | the rate never exceeds 60 over any single gap, so it is the rate of the slowest beat |
| HeartRate.LongestGapExample | pulse_oximeter_server.py:79-81 | peaks at 0, 1, 2 and 5 s give 20 beats per minute |
| HeartRate.Slot | pulse_oximeter_server.py:82-83 | red writes slot 1 and every other indicator writes slot 0 |
| Ratio.Truncate | pulse_oximeter_server.py:110-115 | all four lists are cut to the shorter AC length, keeping their prefixes, and nothing changes when the lengths already agree |
| Ratio.RatioOfRatios | pulse_oximeter_server.py:118 | one ratio per aligned pulse, positive when all AC and DC values are positive |
| Ratio.RatioValues | pulse_oximeter_server.py:110-118 | as many ratios as the shorter channel has pulses, ratio i being (red AC / red DC) / (infrared AC / infrared DC) of pulse i of the original lists, so truncation pairs the earliest pulses |
| Ratio.WithinOneDeviation | pulse_oximeter_server.py:120 | keeps the values strictly closer to the mean than one deviation, every copy of each (a kept value occurs as often as in the input, a dropped one not at all), in their original order |
| Ratio.KeptMeanUndefinedIff | pulse_oximeter_server.py:120-121 | the kept mean is undefined iff no value is strictly within the deviation |
| Ratio.KeptMeanWithin | pulse_oximeter_server.py:120-121 | a defined kept mean is itself strictly within the deviation |
| Ratio.KeptMeanBetweenExtremes | pulse_oximeter_server.py:120-121 | a defined kept mean lies between the smallest and the largest value |
| Ratio.FilteredMeanUndefinedIff | pulse_oximeter_server.py:119-122 | R becomes NaN iff there are no ratios or none lies within one standard deviation of their mean |
| Ratio.FilteredMeanRetained | pulse_oximeter_server.py:119-122 | a defined R lies between the smallest and the largest ratio and within one standard deviation of their mean |
| Ratio.IdenticalRatiosGiveNoR | pulse_oximeter_server.py:119-122 | identical ratios have zero deviation, so none is kept and R becomes NaN |
| Ratio.KeptMean | pulse_oximeter_server.py:120-121 | mean of the values within the deviation, undefined when none is; its properties are stated by the `KeptMean` lemmas |
| Ratio.FilteredMean | pulse_oximeter_server.py:119-121 | the filter and the mean taken with the mean and variance of the ratios themselves; undefined for no ratios; its properties are stated by the `FilteredMean` lemmas |
| Ratio.CalculateR | pulse_oximeter_server.py:106-122 | the new `r_value`: NaN exactly when there are no aligned ratios or none lies within one standard deviation of their mean; otherwise a value between the smallest and the largest ratio that is itself within one standard deviation of their mean |
| Ratio.PositiveMeasurementsGivePositiveR | pulse_oximeter_server.py:106-122 | positive AC and DC values make every denominator non-zero and give a positive R when one is defined |
| Calibration.SpO2 | pulse_oximeter_server.py:130 | the calibration quadratic; its range is stated by the lemmas below |
| Calibration.SpO2BelowHundred | pulse_oximeter_server.py:130 | the unclamped curve stays strictly below 100 for every R |
| Calibration.SpO2UnboundedBelow | pulse_oximeter_server.py:130 | nothing clamps the curve from below: some R undercuts any bound |
| Calibration.SpO2AtZero | pulse_oximeter_server.py:130 | the initial R of 0 reads as 96.06 |
| Calibration.SpO2AtPointFour | pulse_oximeter_server.py:130 | R = 0.4 reads as 99.4928 |
| Server.Initial | pulse_oximeter_server.py:11-17 | count 0, no channel data, R 0, heart rates [0, 0]; what it reads as is stated by `InitialReport` |
| Server.Ingest | pulse_oximeter_server.py:28-36 | a red or infrared trace replaces that channel's measurement with `AcDcOf`, records its heart rate in its slot and counts one submission, leaving the other channel and slot alone; another indicator changes nothing; the extraction fails exactly for fewer than two peaks |
| Server.Pair | pulse_oximeter_server.py:38-41 | at a count of 2 with both channels stored, R becomes `CalculateR` and the count resets; with a channel missing the call fails and the count stays 2; at any other count nothing happens |
| Server.Step | pulse_oximeter_server.py:21-42 | a request keeps the state consistent; it fails for lack of peaks exactly when a channel trace has fewer than two, and then changes nothing; R changes only on success with the count reset |
| Server.Run | pulse_oximeter_server.py:21-42 | requests applied one after another keep the state consistent |
| Server.StepKeepsCountBelowTwo | pulse_oximeter_server.py:29-41 | with both channels stored and the count at most 1, one request keeps both and keeps the count at most 1 |
| Server.CountStaysBelowTwo | pulse_oximeter_server.py:29-41 | once both channels are stored, the count stays in {0, 1} across any sequence of requests |
| Server.RedThenInfraredComputesR | pulse_oximeter_server.py:29-41 | from a count of 0, a red then an infrared trace store both measurements, set R to their ratio and reset the count |
| Server.SameChannelTwiceUsesStaleData | pulse_oximeter_server.py:29-41 | the count counts submissions: two reds in a row compute R from the second red and the old infrared data |
| Server.TwoRedsFirstJamTheCount | pulse_oximeter_server.py:29-41 | two reds before any infrared fail with the count stuck at 2 |
| Server.JammedNeverRecovers | pulse_oximeter_server.py:29-41 | from a stuck count, no sequence of requests unjams it or changes R |
| Server.TwoRedsFirstFreezeR | pulse_oximeter_server.py:11-41 | two reds at start-up leave R at its initial 0 forever |
| Server.StepRollingBack | pulse_oximeter_server.py:21-42 | corrected request: a failure changes nothing, a success is the original step, and a count of at most 1 stays at most 1 |
| Server.RollingBackKeepsCountBelowTwo | pulse_oximeter_server.py:17-41 | with roll-back the count stays in {0, 1} for every sequence of requests |
| Server.RollingBackRecoversFromTwoReds | pulse_oximeter_server.py:29-41 | with roll-back, red, red, infrared from start-up computes R from the first red and the infrared |
| Server.Report | pulse_oximeter_server.py:127-132 | SpO2 is the curve at R (undefined for a NaN R) and below 100; the heart rate is the mean of the two slots |
| Server.InitialReport | pulse_oximeter_server.py:127-131 | before any pairing the answer is SpO2 96.06 with heart rate 0 |
| Server.Oximeter.constructor | pulse_oximeter_server.py:11-17 | the globals start with count 0, no channel data, R 0 and heart rates [0, 0] |
| Server.Oximeter.FindAcDc | pulse_oximeter_server.py:78-93 | with fewer than two peaks it writes nothing; otherwise it writes the heart rate to the channel's slot only and returns `AcDcOf` |
| Server.Oximeter.Store | pulse_oximeter_server.py:28-36 | the indicator branch in place: it stores exactly when `Ingest` succeeds, the new globals are those of `Ingest`, and a failed extraction writes nothing |
| Server.Oximeter.PairInPlace | pulse_oximeter_server.py:38-41 | the pairing tail in place: the new globals and the outcome are exactly those of `Pair` |
| Server.Oximeter.Submit | pulse_oximeter_server.py:21-42 | the new globals and the outcome are exactly those of `Step` applied to the old globals |
| Server.Oximeter.Retrieve | pulse_oximeter_server.py:127-132 | answers exactly `Report` of the current globals and changes nothing |

## Left out

- The Flask routes, JSON parsing and HTTP status codes (lines 2, 8, 20-25, 42, 126, 132, 135-136) are not modelled. The handlers are modelled by their effect on the globals and their outcome. A `Failed` outcome stands for the exception that Flask turns into an error response.
- `convert_to_array` (lines 45-50): parsing decimal text and rounding to 5 places are not modelled. Traces arrive as reals.
- The time axis, trimming, FFT band-pass filter, offset and absolute value of `find_ACDC` (lines 55-71) are not modelled. They are floating-point signal processing, and the model takes their output as input.
- `find_peaks` with its prominence threshold (lines 74-76) is not modelled. It is a library routine. Its results are inputs that are strictly increasing in time, with troughs inside the trace.
- `plot_ppg` (lines 96-103) is not modelled. It only draws a figure and is never called.
- The `print` calls (lines 31, 35) are not modelled. They are console output only.
- Concurrent requests are not modelled. Each request is one atomic step.
- Server.WellFormed: IEEE infinities and NaN from a zero DC or AC denominator are not modelled. Traces with non-positive samples or flat pulse segments are excluded by this predicate instead.
- Stats.Variance: the square root of `np.std` is not modelled. The outlier test compares squared distances with the variance, which is the same test.
- Floating-point rounding everywhere is not modelled. All arithmetic is exact real arithmetic.

## Findings

| source | as written | input that shows it | evidently intended | confidence | as-written member | corrected member |
|---|---|---|---|---|---|---|
| pulse_oximeter_server.py:29-41 | `count` counts submissions, not channels. When it reaches 2 before both channels were stored (two red or two infrared traces first), `calculate_r` raises on `len(None)` after `count` was incremented, so `count` stays 2. The next channel submission makes it 3, and `count == 2` never holds again: R is never updated for the rest of the server's life | from start-up, two red (or two infrared) submissions with at least two peaks each, then any requests | a failed request leaves the globals unchanged, so the count stays in {0, 1} and a later infrared trace completes a pair | not executed | Server.TwoRedsFirstFreezeR | Server.RollingBackKeepsCountBelowTwo |
