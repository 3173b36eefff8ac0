/** The calibration curve of `send_oxygenation_and_hr`, applied without clamping. */
module Calibration {

  /** `-40.22 * r_value**2 + 24.67 * r_value + 96.06`. */
  function SpO2(r: real): real
  {
    -40.22 * r * r + 24.67 * r + 96.06
  }

  /**
   * The curve peaks just below 100: its vertex is at R = 24.67 / 80.44, so
   * no R at all gives a saturation of 100 or more.
   */
  lemma SpO2BelowHundred(r: real)
    ensures SpO2(r) < 100.0
  {
    var d := r - 24.67 / 80.44;
    assert SpO2(r) == 100.0 - 40.22 * (d * d) - (3.94 - 24.67 * 24.67 / 160.88);
    assert 0.0 <= d * d;
  }

  /** Nothing clamps the curve from below: every bound is undercut by some R. */
  lemma SpO2UnboundedBelow(bound: real)
    ensures exists r :: SpO2(r) < bound
  {
    var r := if bound < 96.06 then 1.0 + (96.06 - bound) / 15.55 else 1.0;
    assert r * r >= r by {
      assert r * r - r == r * (r - 1.0);
      assert 0.0 <= r * (r - 1.0);
    }
    assert SpO2(r) <= -15.55 * r + 96.06;
    assert SpO2(r) < bound;
  }

  /** A stored R of 0 (the initial value) reads as 96.06 %. */
  lemma SpO2AtZero()
    ensures SpO2(0.0) == 96.06
  {
  }

  /** R = 0.4 reads as 99.4928 %. */
  lemma SpO2AtPointFour()
    ensures SpO2(0.4) == 99.4928
  {
  }
}
