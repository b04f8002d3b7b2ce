/**
 * The array helpers the Ensemble Copula Coupling plugins call to close off a
 * distribution, and the errors those plugins raise. Data are held as one row
 * per grid point with the probabilistic axis (thresholds or percentiles)
 * along the row.
 */
module EccUtilities {
  import opened Monotonic

  /** The ValueErrors (and the one ZeroDivisionError) of the plugins. */
  datatype EccError =
    | ForecastOutsideBounds      // padded forecast rows not ascending
    | PercentilesNotAscending    // padded percentile axis not ascending
    | CdfNotAscending            // 1 - exceedance probability decreases
    | ThresholdsOutsideBounds    // padded threshold axis not ascending
    | PercentileCoordinateMissing
    | NoRawMembers               // `index % len(mpoints)` with no members

  /** An axis and its rows after the bounds have been added. */
  datatype Padded = Padded(axis: seq<real>, rows: seq<seq<real>>)

  /** Every row has `width` entries, one per sample of the axis. */
  predicate Rectangular(rows: seq<seq<real>>, width: nat) {
    forall i :: 0 <= i < |rows| ==> |rows[i]| == width
  }

  /** Every row is ascending along the axis. */
  predicate AllAscending(rows: seq<seq<real>>) {
    forall i :: 0 <= i < |rows| ==> Ascending(rows[i])
  }

  /** `insert_lower_and_upper_endpoint_to_1d_array`: one value before, one after. */
  function InsertEndpoints(a: seq<real>, lower: real, upper: real): (r: seq<real>)
    ensures |r| == |a| + 2 && r[0] == lower && r[|a| + 1] == upper
    ensures forall k :: 0 <= k < |a| ==> r[k + 1] == a[k]
  {
    [lower] + a + [upper]
  }

  /** `concatenate_2d_array_with_2d_array_endpoints`: the same on every row. */
  function InsertEndpointsInRows(rows: seq<seq<real>>, lower: real, upper: real): (r: seq<seq<real>>)
    ensures |r| == |rows|
    ensures forall i :: 0 <= i < |rows| ==> r[i] == InsertEndpoints(rows[i], lower, upper)
  {
    seq(|rows|, i requires 0 <= i < |rows| => InsertEndpoints(rows[i], lower, upper))
  }

  /** Padded rows are all ascending exactly when every row is ascending within the bounds. */
  lemma PaddedRowsAscending(rows: seq<seq<real>>, lower: real, upper: real)
    ensures AllAscending(InsertEndpointsInRows(rows, lower, upper))
        <==> forall i :: 0 <= i < |rows| ==> AscendingWithin(rows[i], lower, upper)
  {
    forall i | 0 <= i < |rows| {
      PaddedAscending(rows[i], lower, upper);
    }
  }
}
