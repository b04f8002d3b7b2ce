/**
 * The ResamplePercentiles plugin: re-expresses forecast values known at one
 * set of percentiles at another set of percentiles, by closing the quantile
 * function off with the bounds of the distribution and interpolating
 * linearly, one grid point at a time.
 */
module ResamplePercentiles {
  import opened Wrappers
  import opened Monotonic
  import opened Interpolation
  import opened EccUtilities

  /**
   * `_add_bounds_to_percentiles_and_forecast_at_percentiles`: percentile 0
   * goes before the axis and 1 after it, `lower` before each forecast row
   * and `upper` after it. The padded forecast rows are checked first, then
   * the padded percentiles; a value equal to a bound passes.
   */
  function AddBoundsToPercentilesAndForecast(
    percentiles: seq<real>, forecast: seq<seq<real>>, lower: real, upper: real
  ): (r: Result<Padded, EccError>)
    ensures r == Failure(ForecastOutsideBounds)
        <==> exists i :: 0 <= i < |forecast| && !AscendingWithin(forecast[i], lower, upper)
    ensures r == Failure(PercentilesNotAscending)
        <==> (forall i :: 0 <= i < |forecast| ==> AscendingWithin(forecast[i], lower, upper))
             && !AscendingWithin(percentiles, 0.0, 1.0)
    ensures r.Success?
        <==> (forall i :: 0 <= i < |forecast| ==> AscendingWithin(forecast[i], lower, upper))
             && AscendingWithin(percentiles, 0.0, 1.0)
    ensures r.Success? ==>
      && r.value.axis == InsertEndpoints(percentiles, 0.0, 1.0)
      && r.value.rows == InsertEndpointsInRows(forecast, lower, upper)
      && Ascending(r.value.axis)
      && AllAscending(r.value.rows)
  {
    var axis := InsertEndpoints(percentiles, 0.0, 1.0);
    var rows := InsertEndpointsInRows(forecast, lower, upper);
    PaddedRowsAscending(forecast, lower, upper);
    PaddedAscending(percentiles, 0.0, 1.0);
    if !AllAscending(rows) then
      Failure(ForecastOutsideBounds)
    else if !Ascending(axis) then
      Failure(PercentilesNotAscending)
    else
      Success(Padded(axis, rows))
  }

  /**
   * What `_sample_percentiles` computes: after padding, row i of the result
   * is the padded forecast row i interpolated at the desired percentiles.
   * Every value lies within the bounds, and a desired percentile below 0
   * (above 1) takes the lower (upper) bound.
   */
  function ResampledForecast(
    percentiles: seq<real>, forecast: seq<seq<real>>, desired: seq<real>, lower: real, upper: real
  ): (r: Result<seq<seq<real>>, EccError>)
    requires Rectangular(forecast, |percentiles|)
    ensures r.Failure? <==> AddBoundsToPercentilesAndForecast(percentiles, forecast, lower, upper).Failure?
    ensures r.Failure? ==> r.error == AddBoundsToPercentilesAndForecast(percentiles, forecast, lower, upper).error
    ensures r.Success? ==> |r.value| == |forecast| && Rectangular(r.value, |desired|)
    ensures r.Success? ==>
      forall i, q :: 0 <= i < |forecast| && 0 <= q < |desired| ==> lower <= r.value[i][q] <= upper
    ensures r.Success? ==>
      forall i, q :: 0 <= i < |forecast| && 0 <= q < |desired| && desired[q] < 0.0 ==> r.value[i][q] == lower
    ensures r.Success? ==>
      forall i, q :: 0 <= i < |forecast| && 0 <= q < |desired| && desired[q] > 1.0 ==> r.value[i][q] == upper
  {
    match AddBoundsToPercentilesAndForecast(percentiles, forecast, lower, upper)
    case Failure(e) => Failure(e)
    case Success(padded) =>
      Success(seq(|padded.rows|, i requires 0 <= i < |padded.rows| =>
                    InterpAll(desired, padded.axis, padded.rows[i])))
  }

  /**
   * `_sample_percentiles`: pads, then fills a preallocated buffer one grid
   * point at a time with `np.interp`.
   */
  method SamplePercentiles(
    percentiles: seq<real>, forecast: seq<seq<real>>, desired: seq<real>, lower: real, upper: real
  ) returns (r: Result<seq<seq<real>>, EccError>)
    requires Rectangular(forecast, |percentiles|)
    ensures r == ResampledForecast(percentiles, forecast, desired, lower, upper)
  {
    var padded := AddBoundsToPercentilesAndForecast(percentiles, forecast, lower, upper);
    if padded.Failure? {
      return Failure(padded.error);
    }
    var axis, rows := padded.value.axis, padded.value.rows;
    var buffer := new seq<real>[|rows|];
    for index := 0 to |rows|
      invariant forall k :: 0 <= k < index ==> buffer[k] == InterpAll(desired, axis, rows[k])
    {
      buffer[index] := InterpAll(desired, axis, rows[index]);
    }
    ghost var expected := ResampledForecast(percentiles, forecast, desired, lower, upper);
    assert expected.Success? && |expected.value| == |rows|;
    assert forall k :: 0 <= k < |rows| ==> expected.value[k] == InterpAll(desired, axis, rows[k]);
    assert buffer[..] == expected.value;
    return Success(buffer[..]);
  }

  /** The number of percentiles asked for, or else the length of the input axis. */
  function PercentileCount(noOfPercentiles: Option<nat>, axisLength: nat): (n: nat)
    ensures noOfPercentiles.Some? ==> n == noOfPercentiles.value
    ensures noOfPercentiles.None? ==> n == axisLength
  {
    match noOfPercentiles
    case Some(n) => n
    case None => axisLength
  }

  /**
   * `process`: the percentiles come from `createPercentiles` (the plugin's
   * `create_percentiles`) at the requested count, which defaults to the
   * length of the input percentile axis; the bounds are those of the
   * diagnostic.
   */
  method Process(
    percentiles: seq<real>, forecast: seq<seq<real>>, noOfPercentiles: Option<nat>,
    createPercentiles: nat -> seq<real>, lower: real, upper: real
  ) returns (r: Result<seq<seq<real>>, EccError>)
    requires Rectangular(forecast, |percentiles|)
    ensures r == ResampledForecast(percentiles, forecast,
                                   createPercentiles(PercentileCount(noOfPercentiles, |percentiles|)), lower, upper)
    ensures noOfPercentiles.None? && r.Success? && |createPercentiles(|percentiles|)| == |percentiles|
            ==> Rectangular(r.value, |percentiles|)
  {
    var count := PercentileCount(noOfPercentiles, |percentiles|);
    var desired := createPercentiles(count);
    r := SamplePercentiles(percentiles, forecast, desired, lower, upper);
  }

  /** Ascending desired percentiles give ascending values at every grid point. */
  lemma ResampledRowsAscending(
    percentiles: seq<real>, forecast: seq<seq<real>>, desired: seq<real>, lower: real, upper: real
  )
    requires Rectangular(forecast, |percentiles|) && Ascending(desired)
    requires ResampledForecast(percentiles, forecast, desired, lower, upper).Success?
    ensures AllAscending(ResampledForecast(percentiles, forecast, desired, lower, upper).value)
  {
    var padded := AddBoundsToPercentilesAndForecast(percentiles, forecast, lower, upper).value;
    var r := ResampledForecast(percentiles, forecast, desired, lower, upper).value;
    forall i | 0 <= i < |r| ensures Ascending(r[i]) {
      assert r[i] == InterpAll(desired, padded.axis, padded.rows[i]);
      InterpAllAscending(desired, padded.axis, padded.rows[i]);
    }
  }

  /**
   * Resampling at the input's own percentiles gives the input back, when the
   * percentiles strictly increase inside (0, 1) and every row is ascending
   * within the bounds.
   */
  lemma ResampleAtOwnPercentilesIsIdentity(
    percentiles: seq<real>, forecast: seq<seq<real>>, lower: real, upper: real
  )
    requires Rectangular(forecast, |percentiles|)
    requires StrictlyAscending(percentiles) && AscendingWithin(percentiles, 0.0, 1.0)
    requires forall k :: 0 <= k < |percentiles| ==> 0.0 < percentiles[k] < 1.0
    requires forall i :: 0 <= i < |forecast| ==> AscendingWithin(forecast[i], lower, upper)
    ensures ResampledForecast(percentiles, forecast, percentiles, lower, upper) == Success(forecast)
  {
    var padded := AddBoundsToPercentilesAndForecast(percentiles, forecast, lower, upper).value;
    var r := ResampledForecast(percentiles, forecast, percentiles, lower, upper).value;
    forall i | 0 <= i < |forecast| ensures r[i] == forecast[i] {
      assert r[i] == InterpAll(percentiles, padded.axis, padded.rows[i]);
      RowAtOwnPercentiles(percentiles, forecast[i], lower, upper);
    }
    assert r == forecast;
  }

  /** Padding strictly ascending percentiles inside (0, 1) with 0 and 1 keeps them strictly ascending. */
  lemma PaddedPercentilesStrictlyAscending(percentiles: seq<real>)
    requires StrictlyAscending(percentiles)
    requires forall k :: 0 <= k < |percentiles| ==> 0.0 < percentiles[k] < 1.0
    ensures StrictlyAscending(InsertEndpoints(percentiles, 0.0, 1.0))
  {
    var axis := InsertEndpoints(percentiles, 0.0, 1.0);
    forall k | 0 <= k < |axis| - 1 ensures axis[k] < axis[k + 1] {
      if 0 < k < |axis| - 2 {
        assert axis[k] == percentiles[k - 1] && axis[k + 1] == percentiles[k];
      }
    }
  }

  /** One padded row interpolated at its own strictly ascending interior percentiles is the row itself. */
  lemma RowAtOwnPercentiles(percentiles: seq<real>, row: seq<real>, lower: real, upper: real)
    requires |row| == |percentiles| && StrictlyAscending(percentiles)
    requires forall k :: 0 <= k < |percentiles| ==> 0.0 < percentiles[k] < 1.0
    ensures InterpAll(percentiles, InsertEndpoints(percentiles, 0.0, 1.0), InsertEndpoints(row, lower, upper)) == row
  {
    var axis := InsertEndpoints(percentiles, 0.0, 1.0);
    var padded := InsertEndpoints(row, lower, upper);
    var r := InterpAll(percentiles, axis, padded);
    PaddedPercentilesStrictlyAscending(percentiles);
    forall q | 0 <= q < |percentiles| ensures r[q] == row[q] {
      assert axis[q + 1] == percentiles[q];
      InterpAtSample(axis, padded, q + 1);
    }
  }

  /** A forecast value of 60 cannot be closed off by the bounds (-40, 50). */
  lemma ForecastAboveUpperBoundRejected()
    ensures AddBoundsToPercentilesAndForecast([5.0, 70.0, 95.0], [[8.0, 10.0, 60.0]], -40.0, 50.0)
         == Failure(ForecastOutsideBounds)
  {
    var forecast := [[8.0, 10.0, 60.0]];
    assert !AscendingWithin(forecast[0], -40.0, 50.0) by {
      assert forecast[0][2] > 50.0;
    }
  }

  /** Descending percentiles are refused once the forecast itself passes. */
  lemma DescendingPercentilesRejected()
    ensures AddBoundsToPercentilesAndForecast([100.0, 0.0, -100.0], [[8.0, 10.0, 12.0]], -40.0, 50.0)
         == Failure(PercentilesNotAscending)
  {
    assert AscendingWithin([8.0, 10.0, 12.0], -40.0, 50.0);
    assert !AscendingWithin([100.0, 0.0, -100.0], 0.0, 1.0) by {
      assert [100.0, 0.0, -100.0][0] > 1.0;
    }
  }
}
