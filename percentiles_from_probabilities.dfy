/**
 * The GeneratePercentilesFromProbabilities plugin: turns probabilities of
 * exceeding fixed thresholds into forecast values at percentiles, by building
 * an empirical cumulative distribution function per grid point, closing it
 * off with the bounds of the distribution, and inverting it by linear
 * interpolation.
 */
module GeneratePercentilesFromProbabilities {
  import opened Wrappers
  import opened Monotonic
  import opened Interpolation
  import opened EccUtilities
  import ResamplePercentiles

  /**
   * `_add_bounds_to_thresholds_and_probabilities`: `lower` goes before the
   * thresholds and `upper` after them, probability 0 before every row and 1
   * after it; only the padded thresholds are checked, and a threshold equal
   * to a bound passes.
   */
  function AddBoundsToThresholdsAndProbabilities(
    thresholds: seq<real>, cdf: seq<seq<real>>, lower: real, upper: real
  ): (r: Result<Padded, EccError>)
    ensures r.Failure? <==> !AscendingWithin(thresholds, lower, upper)
    ensures r.Failure? ==> r.error == ThresholdsOutsideBounds
    ensures r.Success? ==>
      && r.value.axis == InsertEndpoints(thresholds, lower, upper)
      && r.value.rows == InsertEndpointsInRows(cdf, 0.0, 1.0)
      && Ascending(r.value.axis)
  {
    var axis := InsertEndpoints(thresholds, lower, upper);
    var rows := InsertEndpointsInRows(cdf, 0.0, 1.0);
    PaddedAscending(thresholds, lower, upper);
    if !Ascending(axis) then Failure(ThresholdsOutsideBounds) else Success(Padded(axis, rows))
  }

  /** `1 - prob_slices`: probability of exceeding becomes probability of not exceeding. */
  function ExceedanceToCdf(probabilities: seq<seq<real>>): (r: seq<seq<real>>)
    ensures |r| == |probabilities|
    ensures forall i :: 0 <= i < |r| ==> |r[i]| == |probabilities[i]|
    ensures forall i, k :: 0 <= i < |r| && 0 <= k < |r[i]| ==> r[i][k] + probabilities[i][k] == 1.0
  {
    seq(|probabilities|, i requires 0 <= i < |probabilities| =>
          seq(|probabilities[i]|, k requires 0 <= k < |probabilities[i]| => 1.0 - probabilities[i][k]))
  }

  /** At some grid point the probability of exceeding rises from one threshold to the next. */
  predicate ExceedanceRises(probabilities: seq<seq<real>>) {
    exists i, k :: 0 <= i < |probabilities| && 0 <= k < |probabilities[i]| - 1
                   && probabilities[i][k] < probabilities[i][k + 1]
  }

  /** The CDF rows of `ExceedanceToCdf` are all ascending exactly when no exceedance probability rises. */
  lemma CdfAscendingIff(probabilities: seq<seq<real>>)
    ensures AllAscending(ExceedanceToCdf(probabilities)) <==> !ExceedanceRises(probabilities)
  {
    var cdf := ExceedanceToCdf(probabilities);
    if !AllAscending(cdf) {
      var i, k :| 0 <= i < |cdf| && 0 <= k < |cdf[i]| - 1 && cdf[i][k] > cdf[i][k + 1];
      assert probabilities[i][k] < probabilities[i][k + 1];
    }
    if ExceedanceRises(probabilities) {
      var i, k :| 0 <= i < |probabilities| && 0 <= k < |probabilities[i]| - 1
                  && probabilities[i][k] < probabilities[i][k + 1];
      assert cdf[i][k] > cdf[i][k + 1];
    }
  }

  /**
   * What `_probabilities_to_percentiles` computes. Before any padding, a
   * grid point whose probability of exceeding rises along the thresholds is
   * refused; then thresholds outside the bounds are refused. Otherwise row i
   * of the result is the padded thresholds interpolated at the percentiles,
   * with the padded CDF row of grid point i as the axis, so every value lies
   * within the bounds.
   */
  function PercentilesFromProbabilities(
    thresholds: seq<real>, probabilities: seq<seq<real>>, percentiles: seq<real>, lower: real, upper: real
  ): (r: Result<seq<seq<real>>, EccError>)
    requires Rectangular(probabilities, |thresholds|)
    ensures r == Failure(CdfNotAscending) <==> ExceedanceRises(probabilities)
    ensures r == Failure(ThresholdsOutsideBounds)
        <==> !ExceedanceRises(probabilities) && !AscendingWithin(thresholds, lower, upper)
    ensures r.Success? <==> !ExceedanceRises(probabilities) && AscendingWithin(thresholds, lower, upper)
    ensures r.Success? ==> |r.value| == |probabilities| && Rectangular(r.value, |percentiles|)
    ensures r.Success? ==>
      forall i, q :: 0 <= i < |probabilities| && 0 <= q < |percentiles| ==> lower <= r.value[i][q] <= upper
  {
    var cdf := ExceedanceToCdf(probabilities);
    CdfAscendingIff(probabilities);
    if !AllAscending(cdf) then
      Failure(CdfNotAscending)
    else
      match AddBoundsToThresholdsAndProbabilities(thresholds, cdf, lower, upper)
      case Failure(e) => Failure(e)
      case Success(padded) =>
        Success(seq(|padded.rows|, i requires 0 <= i < |padded.rows| =>
                      InterpAll(percentiles, padded.rows[i], padded.axis)))
  }

  /**
   * `_probabilities_to_percentiles`: checks, pads, then fills a preallocated
   * buffer one grid point at a time with `np.interp`.
   */
  method ProbabilitiesToPercentiles(
    thresholds: seq<real>, probabilities: seq<seq<real>>, percentiles: seq<real>, lower: real, upper: real
  ) returns (r: Result<seq<seq<real>>, EccError>)
    requires Rectangular(probabilities, |thresholds|)
    ensures r == PercentilesFromProbabilities(thresholds, probabilities, percentiles, lower, upper)
  {
    var cdf := ExceedanceToCdf(probabilities);
    if !AllAscending(cdf) {
      return Failure(CdfNotAscending);
    }
    var padded := AddBoundsToThresholdsAndProbabilities(thresholds, cdf, lower, upper);
    if padded.Failure? {
      return Failure(padded.error);
    }
    var axis, rows := padded.value.axis, padded.value.rows;
    var buffer := new seq<real>[|rows|];
    for index := 0 to |rows|
      invariant forall k :: 0 <= k < index ==> buffer[k] == InterpAll(percentiles, rows[k], axis)
    {
      buffer[index] := InterpAll(percentiles, rows[index], axis);
    }
    ghost var expected := PercentilesFromProbabilities(thresholds, probabilities, percentiles, lower, upper);
    assert expected.Success? && |expected.value| == |rows|;
    assert forall k :: 0 <= k < |rows| ==> expected.value[k] == InterpAll(percentiles, rows[k], axis);
    assert buffer[..] == expected.value;
    return Success(buffer[..]);
  }

  /**
   * `process`: the percentiles come from `createPercentiles` (the plugin's
   * `create_percentiles`) at the requested count, which defaults to the
   * number of thresholds; the bounds are those of the diagnostic.
   */
  method Process(
    thresholds: seq<real>, probabilities: seq<seq<real>>, noOfPercentiles: Option<nat>,
    createPercentiles: nat -> seq<real>, lower: real, upper: real
  ) returns (r: Result<seq<seq<real>>, EccError>)
    requires Rectangular(probabilities, |thresholds|)
    ensures r == PercentilesFromProbabilities(
                   thresholds, probabilities,
                   createPercentiles(ResamplePercentiles.PercentileCount(noOfPercentiles, |thresholds|)), lower, upper)
    ensures noOfPercentiles.None? && r.Success? && |createPercentiles(|thresholds|)| == |thresholds|
            ==> Rectangular(r.value, |thresholds|)
  {
    var count := ResamplePercentiles.PercentileCount(noOfPercentiles, |thresholds|);
    var percentiles := createPercentiles(count);
    r := ProbabilitiesToPercentiles(thresholds, probabilities, percentiles, lower, upper);
  }

  /** Probabilities that lie in [0, 1] give a padded CDF row that is ascending. */
  lemma PaddedCdfAscending(probabilities: seq<seq<real>>, i: nat)
    requires i < |probabilities| && !ExceedanceRises(probabilities)
    requires forall k :: 0 <= k < |probabilities[i]| ==> 0.0 <= probabilities[i][k] <= 1.0
    ensures Ascending(InsertEndpoints(ExceedanceToCdf(probabilities)[i], 0.0, 1.0))
  {
    var cdf := ExceedanceToCdf(probabilities);
    CdfAscendingIff(probabilities);
    assert Ascending(cdf[i]);
    PaddedAscending(cdf[i], 0.0, 1.0);
  }

  /**
   * With probabilities in [0, 1], ascending percentiles give ascending
   * values at every grid point.
   */
  lemma PercentileRowsAscending(
    thresholds: seq<real>, probabilities: seq<seq<real>>, percentiles: seq<real>, lower: real, upper: real
  )
    requires Rectangular(probabilities, |thresholds|) && Ascending(percentiles)
    requires forall i, k :: 0 <= i < |probabilities| && 0 <= k < |thresholds| ==> 0.0 <= probabilities[i][k] <= 1.0
    requires PercentilesFromProbabilities(thresholds, probabilities, percentiles, lower, upper).Success?
    ensures AllAscending(PercentilesFromProbabilities(thresholds, probabilities, percentiles, lower, upper).value)
  {
    var cdf := ExceedanceToCdf(probabilities);
    CdfAscendingIff(probabilities);
    var padded := AddBoundsToThresholdsAndProbabilities(thresholds, cdf, lower, upper).value;
    var r := PercentilesFromProbabilities(thresholds, probabilities, percentiles, lower, upper).value;
    forall i | 0 <= i < |r| ensures Ascending(r[i]) {
      assert r[i] == InterpAll(percentiles, padded.rows[i], padded.axis);
      PaddedCdfAscending(probabilities, i);
      InterpAllAscending(percentiles, padded.rows[i], padded.axis);
    }
  }

  /**
   * Feeding the converted percentiles back through the percentile resampler
   * at the same percentiles reproduces them, when the probabilities lie in
   * [0, 1] and the percentiles strictly increase inside (0, 1).
   */
  lemma ResamplingConvertedPercentilesIsIdentity(
    thresholds: seq<real>, probabilities: seq<seq<real>>, percentiles: seq<real>, lower: real, upper: real
  )
    requires Rectangular(probabilities, |thresholds|)
    requires forall i, k :: 0 <= i < |probabilities| && 0 <= k < |thresholds| ==> 0.0 <= probabilities[i][k] <= 1.0
    requires StrictlyAscending(percentiles) && forall q :: 0 <= q < |percentiles| ==> 0.0 < percentiles[q] < 1.0
    requires PercentilesFromProbabilities(thresholds, probabilities, percentiles, lower, upper).Success?
    ensures var converted := PercentilesFromProbabilities(thresholds, probabilities, percentiles, lower, upper).value;
            ResamplePercentiles.ResampledForecast(percentiles, converted, percentiles, lower, upper) == Success(converted)
  {
    var converted := PercentilesFromProbabilities(thresholds, probabilities, percentiles, lower, upper).value;
    assert Ascending(percentiles);
    assert AscendingWithin(percentiles, 0.0, 1.0);
    PercentileRowsAscending(thresholds, probabilities, percentiles, lower, upper);
    ResamplePercentiles.ResampleAtOwnPercentilesIsIdentity(percentiles, converted, lower, upper);
  }

  /**
   * Thresholds 8, 10, 12 with probabilities of exceeding 0.95, 0.3, 0.05 and
   * bounds (-40, 50) give 8 + 2/13, 9 + 5/13 and 11.6 at percentiles 0.1,
   * 0.5 and 0.9.
   */
  lemma WorkedExample()
    ensures PercentilesFromProbabilities([8.0, 10.0, 12.0], [[0.95, 0.3, 0.05]], [0.1, 0.5, 0.9], -40.0, 50.0)
         == Success([[106.0 / 13.0, 122.0 / 13.0, 11.6]])
  {
    var probabilities := [[0.95, 0.3, 0.05]];
    WorkedExamplePadding();
    CdfAscendingIff(probabilities);
    assert !ExceedanceRises(probabilities);
    assert AscendingWithin([8.0, 10.0, 12.0], -40.0, 50.0);
    ConvertedRow([8.0, 10.0, 12.0], probabilities, [0.1, 0.5, 0.9], -40.0, 50.0, 0);
    WorkedExampleRow();
    var r := PercentilesFromProbabilities([8.0, 10.0, 12.0], probabilities, [0.1, 0.5, 0.9], -40.0, 50.0).value;
    assert |r| == 1 && r[0] == [106.0 / 13.0, 122.0 / 13.0, 11.6];
    assert r == [[106.0 / 13.0, 122.0 / 13.0, 11.6]];
  }

  /** Row i of a successful conversion is the padded thresholds interpolated along grid point i's padded CDF row. */
  lemma ConvertedRow(
    thresholds: seq<real>, probabilities: seq<seq<real>>, percentiles: seq<real>, lower: real, upper: real, i: nat
  )
    requires Rectangular(probabilities, |thresholds|) && i < |probabilities|
    requires PercentilesFromProbabilities(thresholds, probabilities, percentiles, lower, upper).Success?
    ensures AddBoundsToThresholdsAndProbabilities(thresholds, ExceedanceToCdf(probabilities), lower, upper).Success?
    ensures var padded := AddBoundsToThresholdsAndProbabilities(thresholds, ExceedanceToCdf(probabilities), lower, upper).value;
      PercentilesFromProbabilities(thresholds, probabilities, percentiles, lower, upper).value[i]
      == InterpAll(percentiles, padded.rows[i], padded.axis)
  {
  }

  /** The CDF and padding steps of the worked example. */
  lemma WorkedExamplePadding()
    ensures ExceedanceToCdf([[0.95, 0.3, 0.05]]) == [[0.05, 0.7, 0.95]]
    ensures AddBoundsToThresholdsAndProbabilities([8.0, 10.0, 12.0], [[0.05, 0.7, 0.95]], -40.0, 50.0)
         == Success(Padded([-40.0, 8.0, 10.0, 12.0, 50.0], [[0.0, 0.05, 0.7, 0.95, 1.0]]))
  {
    var cdf := ExceedanceToCdf([[0.95, 0.3, 0.05]]);
    assert cdf[0] == [0.05, 0.7, 0.95];
    assert AscendingWithin([8.0, 10.0, 12.0], -40.0, 50.0);
    var rows := InsertEndpointsInRows([[0.05, 0.7, 0.95]], 0.0, 1.0);
    assert rows[0] == [0.0] + [0.05, 0.7, 0.95] + [1.0] == [0.0, 0.05, 0.7, 0.95, 1.0];
    assert rows == [[0.0, 0.05, 0.7, 0.95, 1.0]];
    assert InsertEndpoints([8.0, 10.0, 12.0], -40.0, 50.0) == [-40.0, 8.0, 10.0, 12.0, 50.0];
  }

  /** The interpolation step of the worked example, on the padded CDF row. */
  lemma WorkedExampleRow()
    ensures InterpAll([0.1, 0.5, 0.9], [0.0, 0.05, 0.7, 0.95, 1.0], [-40.0, 8.0, 10.0, 12.0, 50.0])
         == [106.0 / 13.0, 122.0 / 13.0, 11.6]
  {
    var xp := [0.0, 0.05, 0.7, 0.95, 1.0];
    var fp := [-40.0, 8.0, 10.0, 12.0, 50.0];
    assert Ascending(xp) by {
      assert xp[0] <= xp[1] <= xp[2] <= xp[3] <= xp[4];
    }
    InterpOnSegment(0.1, xp, fp, 1);
    assert Lerp(0.05, 0.7, 8.0, 10.0, 0.1) == 106.0 / 13.0;
    InterpOnSegment(0.5, xp, fp, 1);
    assert Lerp(0.05, 0.7, 8.0, 10.0, 0.5) == 122.0 / 13.0;
    InterpOnSegment(0.9, xp, fp, 2);
    assert Lerp(0.7, 0.95, 10.0, 12.0, 0.9) == 11.6;
    var r := InterpAll([0.1, 0.5, 0.9], xp, fp);
    assert r[0] == Interp(0.1, xp, fp) && r[1] == Interp(0.5, xp, fp) && r[2] == Interp(0.9, xp, fp);
  }

  /** Probabilities of exceeding 0.05, 0.7, 0.95 rise, so the CDF would fall: refused. */
  lemma RisingExceedanceRejected()
    ensures PercentilesFromProbabilities([8.0, 10.0, 12.0], [[0.05, 0.7, 0.95]], [0.1, 0.5, 0.9], -40.0, 50.0)
         == Failure(CdfNotAscending)
  {
    var probabilities := [[0.05, 0.7, 0.95]];
    assert probabilities[0][0] < probabilities[0][1];
  }

  /** A threshold of 60 lies above the upper bound 50: refused. */
  lemma ThresholdAboveUpperBoundRejected()
    ensures PercentilesFromProbabilities([8.0, 10.0, 60.0], [[0.95, 0.3, 0.05]], [0.1, 0.5, 0.9], -40.0, 50.0)
         == Failure(ThresholdsOutsideBounds)
  {
    var probabilities := [[0.95, 0.3, 0.05]];
    var thresholds := [8.0, 10.0, 60.0];
    assert !ExceedanceRises(probabilities);
    assert thresholds[2] > 50.0;
  }
}
