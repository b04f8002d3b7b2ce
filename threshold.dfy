/**
 * BasicThreshold: converts every data value of a cube into a truth value in
 * [0, 1] saying whether it exceeds a threshold, either crisply or through a
 * linear fuzzy ramp around the threshold, optionally complemented so that
 * values below the threshold count.
 */
module Threshold {
  import opened Wrappers
  import opened Cubes

  datatype ThresholdError = ZeroThreshold | FuzzyFactorOutOfRange(fuzzyFactor: real)

  /** The settings the constructor accepts. */
  predicate SettingsValid(threshold: real, fuzzyFactor: Option<real>) {
    threshold != 0.0 && (fuzzyFactor.Some? ==> 0.0 < fuzzyFactor.value < 1.0)
  }

  /**
   * The constructor's checks, in the order it makes them: a zero threshold
   * first, then a fuzzy factor outside (0, 1); no fuzzy factor is accepted.
   */
  function CheckSettings(threshold: real, fuzzyFactor: Option<real>): (r: Outcome<ThresholdError>)
    ensures r == Pass <==> SettingsValid(threshold, fuzzyFactor)
    ensures threshold == 0.0 ==> r == Fail(ZeroThreshold)
    ensures threshold != 0.0 && fuzzyFactor.Some? && !(0.0 < fuzzyFactor.value < 1.0) ==>
      r == Fail(FuzzyFactorOutOfRange(fuzzyFactor.value))
  {
    if threshold == 0.0 then Fail(ZeroThreshold)
    else if fuzzyFactor.Some? && !(0.0 < fuzzyFactor.value < 1.0) then
      Fail(FuzzyFactorOutOfRange(fuzzyFactor.value))
    else Pass
  }

  /** `np.clip(v, 0., 1.)`. */
  function Clip(v: real): (r: real)
    ensures 0.0 <= r <= 1.0
    ensures 0.0 <= v <= 1.0 ==> r == v
    ensures v < 0.0 ==> r == 0.0
    ensures v > 1.0 ==> r == 1.0
  {
    if v < 0.0 then 0.0 else if v > 1.0 then 1.0 else v
  }

  /** The crisp truth value `x > threshold`, as 1 or 0. */
  function Crisp(x: real, threshold: real): (r: real)
    ensures (r == 1.0 && x > threshold) || (r == 0.0 && x <= threshold)
  {
    if x > threshold then 1.0 else 0.0
  }

  /**
   * The fuzzy ramp as written: 0 at `threshold * f`, 1 at
   * `threshold * (2 - f)`. The two ends are distinct because the threshold
   * is not zero and f is below 1.
   */
  function RampAsWritten(x: real, threshold: real, f: real): (r: real)
    requires threshold != 0.0 && 0.0 < f < 1.0
    ensures x == threshold * f ==> r == 0.0
    ensures x == threshold * (2.0 - f) ==> r == 1.0
    ensures x == threshold ==> r == 0.5
  {
    var lower := threshold * f;
    var upper := threshold * (2.0 - f);
    WidthNonzero(threshold, f);
    assert upper - lower != 0.0 by {
      assert upper - lower == threshold * (2.0 - f) - threshold * f;
    }
    DivideBySelf(upper - lower);
    assert threshold - lower == (upper - lower) / 2.0;
    (x - lower) / (upper - lower)
  }

  /** The two ends of the ramp as written are distinct. */
  lemma WidthNonzero(threshold: real, f: real)
    requires threshold != 0.0 && 0.0 < f < 1.0
    ensures threshold * (2.0 - f) - threshold * f != 0.0
  {
    assert threshold * (2.0 - f) - threshold * f == threshold * (2.0 - 2.0 * f);
    assert 2.0 - 2.0 * f > 0.0;
  }

  /** For a positive threshold the ramp as written starts below where it ends. */
  lemma WidthPositive(t: real, f: real, lo: real, hi: real)
    requires t > 0.0 && 0.0 < f < 1.0 && lo == t * f && hi == t * (2.0 - f)
    ensures lo < hi
  {
    assert hi - lo == t * (2.0 - 2.0 * f);
    assert 2.0 - 2.0 * f > 0.0;
  }

  /** A nonzero number divided by itself is 1, and its half divided by it is one half. */
  lemma DivideBySelf(d: real)
    requires d != 0.0
    ensures d / d == 1.0 && d / 2.0 / d == 0.5
  {
  }

  /** The truth value `process` computes for one data value, as written. */
  function TruthValueAsWritten(x: real, threshold: real, fuzzyFactor: Option<real>, belowThreshOk: bool): (r: real)
    requires SettingsValid(threshold, fuzzyFactor)
    ensures 0.0 <= r <= 1.0
    ensures fuzzyFactor.None? && !belowThreshOk ==> (r == 1.0 <==> x > threshold) && (r == 0.0 <==> x <= threshold)
    ensures fuzzyFactor.None? && belowThreshOk ==> (r == 1.0 <==> x <= threshold) && (r == 0.0 <==> x > threshold)
  {
    var v := match fuzzyFactor
      case None => Clip(Crisp(x, threshold))
      case Some(f) => Clip(RampAsWritten(x, threshold, f));
    if belowThreshOk then 1.0 - v else v
  }

  function Min(a: real, b: real): real { if a <= b then a else b }
  function Max(a: real, b: real): real { if a <= b then b else a }

  /** The lower end of the fuzzy band: the smaller of `threshold * f` and `threshold * (2 - f)`. */
  function BandLower(threshold: real, f: real): (lo: real)
    requires threshold != 0.0 && 0.0 < f < 1.0
    ensures lo < threshold
    ensures threshold > 0.0 ==> lo == threshold * f
  {
    assert threshold * f < threshold * 1.0 || threshold * (2.0 - f) < threshold * 1.0 by {
      if threshold > 0.0 {
        assert threshold * f < threshold * 1.0;
      } else {
        assert threshold * (2.0 - f) < threshold * 1.0;
      }
    }
    Min(threshold * f, threshold * (2.0 - f))
  }

  /** The upper end of the fuzzy band: the larger of `threshold * f` and `threshold * (2 - f)`. */
  function BandUpper(threshold: real, f: real): (hi: real)
    requires threshold != 0.0 && 0.0 < f < 1.0
    ensures threshold < hi
    ensures threshold > 0.0 ==> hi == threshold * (2.0 - f)
    ensures BandLower(threshold, f) + hi == 2.0 * threshold
  {
    assert threshold * 1.0 < threshold * (2.0 - f) || threshold * 1.0 < threshold * f by {
      if threshold > 0.0 {
        assert threshold * 1.0 < threshold * (2.0 - f);
      } else {
        assert threshold * 1.0 < threshold * f;
      }
    }
    Max(threshold * f, threshold * (2.0 - f))
  }

  /** The fuzzy ramp rising from 0 at the lower end of the band to 1 at its upper end. */
  function Ramp(x: real, threshold: real, f: real): (r: real)
    requires threshold != 0.0 && 0.0 < f < 1.0
    ensures x <= BandLower(threshold, f) ==> r <= 0.0
    ensures x >= BandUpper(threshold, f) ==> r >= 1.0
    ensures x == threshold ==> r == 0.5
  {
    var lo := BandLower(threshold, f);
    var hi := BandUpper(threshold, f);
    RampEnds(x, lo, hi);
    (x - lo) / (hi - lo)
  }

  /**
   * The truth value of one data value, with the fuzzy ramp rising for
   * thresholds of either sign; for a positive threshold it is the value
   * `process` computes as written.
   */
  function TruthValue(x: real, threshold: real, fuzzyFactor: Option<real>, belowThreshOk: bool): (r: real)
    requires SettingsValid(threshold, fuzzyFactor)
    ensures 0.0 <= r <= 1.0
    ensures fuzzyFactor.None? && !belowThreshOk ==> (r == 1.0 <==> x > threshold) && (r == 0.0 <==> x <= threshold)
    ensures fuzzyFactor.None? && belowThreshOk ==> (r == 1.0 <==> x <= threshold) && (r == 0.0 <==> x > threshold)
  {
    var v := match fuzzyFactor
      case None => Clip(Crisp(x, threshold))
      case Some(f) => Clip(Ramp(x, threshold, f));
    if belowThreshOk then 1.0 - v else v
  }

  /** Dividing by a positive number keeps order. */
  lemma DivideKeepsOrder(a: real, b: real, d: real)
    requires d > 0.0 && a <= b
    ensures a / d <= b / d
  {
    assert b / d - a / d == (b - a) / d;
    assert (b - a) / d * d == b - a;
  }

  /** Where a ramp from `lo` to `hi` reaches 0, 1 and one half. */
  lemma RampEnds(x: real, lo: real, hi: real)
    requires lo < hi
    ensures x <= lo ==> (x - lo) / (hi - lo) <= 0.0
    ensures x >= hi ==> (x - lo) / (hi - lo) >= 1.0
    ensures 2.0 * x == lo + hi ==> (x - lo) / (hi - lo) == 0.5
  {
    var d := hi - lo;
    if x <= lo {
      DivideKeepsOrder(x - lo, 0.0, d);
      assert 0.0 / d == 0.0;
    }
    if x >= hi {
      DivideKeepsOrder(d, x - lo, d);
      assert d / d == 1.0;
    }
    if 2.0 * x == lo + hi {
      assert x - lo == d / 2.0;
      assert d / 2.0 / d == 0.5;
    }
  }

  /**
   * With a positive threshold t and fuzzy factor f the truth value as written
   * is 0 up to t*f, 1 from t*(2 - f), one half at t, and the unclipped ramp
   * in between.
   */
  lemma PositiveThresholdRamp(x: real, t: real, f: real)
    requires t > 0.0 && 0.0 < f < 1.0
    ensures x <= t * f ==> TruthValueAsWritten(x, t, Some(f), false) == 0.0
    ensures x >= t * (2.0 - f) ==> TruthValueAsWritten(x, t, Some(f), false) == 1.0
    ensures x == t ==> TruthValueAsWritten(x, t, Some(f), false) == 0.5
    ensures t * f < x < t * (2.0 - f) ==>
      TruthValueAsWritten(x, t, Some(f), false) == (x - t * f) / (t * (2.0 - f) - t * f)
  {
    var lo, hi := t * f, t * (2.0 - f);
    WidthPositive(t, f, lo, hi);
    RampEnds(x, lo, hi);
    if lo < x < hi {
      DivideKeepsOrder(0.0, x - lo, hi - lo);
      DivideKeepsOrder(x - lo, hi - lo, hi - lo);
    }
  }

  /** With a positive threshold the fuzzy truth value as written never falls as the data value rises. */
  lemma PositiveThresholdRampRises(x: real, y: real, t: real, f: real)
    requires t > 0.0 && 0.0 < f < 1.0 && x <= y
    ensures TruthValueAsWritten(x, t, Some(f), false) <= TruthValueAsWritten(y, t, Some(f), false)
  {
    var lo, hi := t * f, t * (2.0 - f);
    WidthPositive(t, f, lo, hi);
    DivideKeepsOrder(x - lo, y - lo, hi - lo);
  }

  /** Counting values below the threshold gives one minus the truth value for values above it. */
  lemma BelowThreshOkComplements(x: real, t: real, fuzzyFactor: Option<real>)
    requires SettingsValid(t, fuzzyFactor)
    ensures TruthValueAsWritten(x, t, fuzzyFactor, true) == 1.0 - TruthValueAsWritten(x, t, fuzzyFactor, false)
    ensures TruthValue(x, t, fuzzyFactor, true) == 1.0 - TruthValue(x, t, fuzzyFactor, false)
  {
  }

  /** For a positive threshold, or without a fuzzy factor, the corrected truth value is the one computed as written. */
  lemma TruthValueAgreesForPositiveThreshold(x: real, t: real, fuzzyFactor: Option<real>, belowThreshOk: bool)
    requires SettingsValid(t, fuzzyFactor) && (t > 0.0 || fuzzyFactor.None?)
    ensures TruthValue(x, t, fuzzyFactor, belowThreshOk) == TruthValueAsWritten(x, t, fuzzyFactor, belowThreshOk)
  {
  }

  /**
   * For a threshold of either sign the fuzzy truth value is 0 below the band,
   * 1 above it, one half at the threshold, agrees with the crisp value
   * outside the band and never falls as the data value rises.
   */
  lemma FuzzyTruthValueProperties(x: real, y: real, t: real, f: real)
    requires t != 0.0 && 0.0 < f < 1.0
    ensures x <= BandLower(t, f) ==> TruthValue(x, t, Some(f), false) == 0.0
    ensures x >= BandUpper(t, f) ==> TruthValue(x, t, Some(f), false) == 1.0
    ensures x == t ==> TruthValue(x, t, Some(f), false) == 0.5
    ensures x <= BandLower(t, f) || x >= BandUpper(t, f) ==>
      TruthValue(x, t, Some(f), false) == TruthValue(x, t, None, false)
    ensures x <= y ==> TruthValue(x, t, Some(f), false) <= TruthValue(y, t, Some(f), false)
  {
    var lo, hi := BandLower(t, f), BandUpper(t, f);
    RampEnds(x, lo, hi);
    if x <= y {
      DivideKeepsOrder(x - lo, y - lo, hi - lo);
    }
  }

  /**
   * The ramp as written runs the wrong way for a negative threshold: with
   * threshold -10 and fuzzy factor 0.5, the value -20 (below the threshold)
   * gets truth value 1 and the value 0 (above it) gets 0, the opposite of
   * the crisp answers; the corrected ramp gives the crisp answers.
   */
  lemma NegativeThresholdRampInverted()
    ensures TruthValueAsWritten(-20.0, -10.0, Some(0.5), false) == 1.0
    ensures TruthValueAsWritten(-20.0, -10.0, None, false) == 0.0
    ensures TruthValueAsWritten(0.0, -10.0, Some(0.5), false) == 0.0
    ensures TruthValueAsWritten(0.0, -10.0, None, false) == 1.0
    ensures TruthValue(-20.0, -10.0, Some(0.5), false) == 0.0
    ensures TruthValue(0.0, -10.0, Some(0.5), false) == 1.0
  {
    assert RampAsWritten(-20.0, -10.0, 0.5) == 1.5;
    assert RampAsWritten(0.0, -10.0, 0.5) == -0.5;
    assert BandLower(-10.0, 0.5) == -15.0 && BandUpper(-10.0, 0.5) == -5.0;
  }

  /** The thresholding plugin with its validated settings. */
  class BasicThreshold {
    var threshold: real
    var fuzzyFactor: Option<real>
    var belowThreshOk: bool

    predicate Valid()
      reads this
    {
      SettingsValid(threshold, fuzzyFactor)
    }

    constructor (threshold: real, fuzzyFactor: Option<real>, belowThreshOk: bool)
      requires SettingsValid(threshold, fuzzyFactor)
      ensures Valid()
      ensures this.threshold == threshold && this.fuzzyFactor == fuzzyFactor
      ensures this.belowThreshOk == belowThreshOk
    {
      this.threshold := threshold;
      this.fuzzyFactor := fuzzyFactor;
      this.belowThreshOk := belowThreshOk;
    }

    /** `BasicThreshold(...)`: the constructor's checks, then the stored settings. */
    static method Create(threshold: real, fuzzyFactor: Option<real>, belowThreshOk: bool)
      returns (r: Result<BasicThreshold, ThresholdError>)
      ensures r.Failure? <==> CheckSettings(threshold, fuzzyFactor).Fail?
      ensures r.Failure? ==> CheckSettings(threshold, fuzzyFactor) == Fail(r.error)
      ensures r.Success? ==>
        && fresh(r.value) && r.value.Valid()
        && r.value.threshold == threshold && r.value.fuzzyFactor == fuzzyFactor
        && r.value.belowThreshOk == belowThreshOk
    {
      var check := CheckSettings(threshold, fuzzyFactor);
      if check.Fail? {
        return Failure(check.error);
      }
      var plugin := new BasicThreshold(threshold, fuzzyFactor, belowThreshOk);
      return Success(plugin);
    }

    /**
     * `process`: replaces every data value of the cube by its truth value as
     * written, which lies in [0, 1]; the coordinates are untouched.
     */
    method Process(cube: Cube)
      requires Valid()
      modifies cube
      ensures |cube.data| == |old(cube.data)|
      ensures forall i :: 0 <= i < |cube.data| ==>
        cube.data[i] == TruthValueAsWritten(old(cube.data)[i], threshold, fuzzyFactor, belowThreshOk)
      ensures forall i :: 0 <= i < |cube.data| ==> 0.0 <= cube.data[i] <= 1.0
      ensures cube.coords == old(cube.coords)
    {
      var data, t, f, below := cube.data, threshold, fuzzyFactor, belowThreshOk;
      cube.data := seq(|data|, i requires 0 <= i < |data| => TruthValueAsWritten(data[i], t, f, below));
    }
  }
}
