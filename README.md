# Ensemble Copula Coupling and thresholding, in Dafny

This project models the probabilistic post-processing core of IMPROVER, the
Met Office's post-processing system. Every piece works one grid point at a
time, along a single probabilistic axis:

- **ResamplePercentiles** re-expresses a forecast known at one set of
  percentiles at another set. It closes the quantile function with percentile
  0 at the lower bound and percentile 1 at the upper bound of the
  diagnostic's distribution, then interpolates linearly.
- **GeneratePercentilesFromProbabilities** starts from the probabilities of
  exceeding fixed thresholds. It turns them into a cumulative distribution
  function (CDF) and closes it with the bounds. It then inverts the CDF by
  linear interpolation at the requested percentiles.
- **EnsembleReordering** first matches the raw ensemble to the number of
  post-processed percentiles, recycling members round-robin. Then, at every
  grid point, it hands the post-processed values out to the members so that
  they keep the rank order of the raw ensemble (Ensemble Copula Coupling).
- **RebadgePercentilesAsMembers** renames the percentile coordinate to
  "realization" and numbers its points 0..n-1.
- **BasicThreshold** validates its settings. It maps every data value to a
  truth value in [0, 1]: either crisp (`x > threshold`) or a linear fuzzy ramp
  around the threshold, optionally complemented.

How the model is built:

- The percentile plugins (ResamplePercentiles, GeneratePercentilesFromProbabilities)
  hold data as rows of reals, one row per grid point, with the probabilistic
  axis along the row.
- EnsembleReordering holds one time slice as a field indexed by member first
  and grid point second (`field[member][point]`), since the member axis
  comes first in the cube.
- RebadgePercentilesAsMembers and BasicThreshold work on a `Cube` whose data
  is one flat sequence of values, next to a map from coordinate names to
  points.
- `np.interp` takes the end value for a query beyond either end of the axis.
  The model finds the segment by scanning right while the query is at or
  above the next sample. On an ascending axis this picks the same segment as
  numpy's search: the last sample at or below the query.
- The row-by-row loops, the member-recycling loops and the per-time-slice
  loop of `rank_ecc` are methods. Each is proved equal to a specification
  function or to a closed form stated in its contract, and the properties
  are proved about those.
- `RebadgePercentilesAsMembers.process` and `BasicThreshold.process` change a
  cube in place, so the cube is a class and both are methods with `modifies`.
- The random tie-break data of `rank_ecc` is a parameter `key`, and so is
  the random primary key `fake` used with `random_ordering`.
- `create_percentiles` is a function parameter, and the bounds of the
  distribution are plain parameters.

Behaviour the model reproduces:

- The percentile resampler pads the percentile axis with 0 and 1 and every
  forecast row with the bounds. It checks the padded forecast rows first,
  then the padded percentile axis.
- The ascending checks use `np.diff(...) < 0`. A value equal to a bound, or
  equal neighbours, therefore pass.
- Among duplicate axis values, interpolation takes the last sample at or
  below the query.
- In the probability path, only the unpadded `1 - p` rows and then the padded
  thresholds are checked. The padded CDF rows are never checked, so
  probabilities outside [0, 1] are not refused.
- `BasicThreshold.process` computes the fuzzy ramp as written. For a negative
  threshold that ramp falls as the value rises (see Findings).

## Model

| member | source | states |
|---|---|---|
| Monotonic.AscendingIsSorted | lib/improver/ensemble_copula_coupling/ensemble_copula_coupling.py:137 | "no adjacent pair decreases" (`np.diff(a) < 0` nowhere) is the same as "every earlier element is at most every later one" |
| Monotonic.PaddedAscending | lib/improver/ensemble_copula_coupling/ensemble_copula_coupling.py:132-137 | `[lo] + a + [hi]` passes the diff check exactly when `a` is ascending with every element in [lo, hi] (equality allowed) |
| Interpolation.Bracket | lib/improver/ensemble_copula_coupling/ensemble_copula_coupling.py:194-196 | the segment scan stops at the sample at or below x whose successor is above x (or at the last sample); every sample it passed is at or below x |
| Interpolation.Lerp | lib/improver/ensemble_copula_coupling/ensemble_copula_coupling.py:194-196 | the line through a segment's two samples takes the first sample's value at its start and the second's at its end |
| Interpolation.LerpBetween | lib/improver/ensemble_copula_coupling/ensemble_copula_coupling.py:194-196 | on its segment the interpolating line stays between the two end values when they ascend |
| Interpolation.LerpMonotone | lib/improver/ensemble_copula_coupling/ensemble_copula_coupling.py:194-196 | a line through ascending values does not decrease |
| Interpolation.Interp | lib/improver/ensemble_copula_coupling/ensemble_copula_coupling.py:194-196 | `np.interp` at one point: above the axis gives the last value, below it the first, and on an ascending axis exactly at its last sample the last value (repeated end samples included); with ascending values the result lies between the first and last value |
| Interpolation.InterpAll | lib/improver/ensemble_copula_coupling/ensemble_copula_coupling.py:194-196 | `np.interp` on a vector of queries: one result per query, each the one-point interpolation |
| Interpolation.InterpOnSegment | lib/improver/ensemble_copula_coupling/ensemble_copula_coupling.py:194-196 | on an ascending axis, a query inside segment [xp[j], xp[j+1]) gets the straight line through that segment |
| Interpolation.InterpAtSample | lib/improver/ensemble_copula_coupling/ensemble_copula_coupling.py:194-196 | on a strictly ascending axis, interpolating at a sample returns that sample's value |
| Interpolation.InterpMonotone | lib/improver/ensemble_copula_coupling/ensemble_copula_coupling.py:194-196 | with ascending axis and values, a larger query never gets a smaller result |
| Interpolation.InterpAllAscending | lib/improver/ensemble_copula_coupling/ensemble_copula_coupling.py:194-196 | ascending queries give ascending results |
| EccUtilities.InsertEndpoints | lib/improver/ensemble_copula_coupling/ensemble_copula_coupling.py:133-134 | padding a vector adds exactly two elements, the lower bound first and the upper bound last, and keeps the vector in between |
| EccUtilities.InsertEndpointsInRows | lib/improver/ensemble_copula_coupling/ensemble_copula_coupling.py:135-136 | every row is padded with the two bounds and the number of rows is kept |
| EccUtilities.PaddedRowsAscending | lib/improver/ensemble_copula_coupling/ensemble_copula_coupling.py:135-137 | all padded rows pass the diff check exactly when every row is ascending within the bounds |
| ResamplePercentiles.AddBoundsToPercentilesAndForecast | lib/improver/ensemble_copula_coupling/ensemble_copula_coupling.py:109-150 | the forecast error is raised exactly when some row is not ascending within the bounds; otherwise the percentile error is raised exactly when the percentiles are not ascending within [0, 1]; on success axis and rows are the padded ones and ascend |
| ResamplePercentiles.ResampledForecast | lib/improver/ensemble_copula_coupling/ensemble_copula_coupling.py:152-196 | fails exactly when padding fails, with the same error; otherwise one row per grid point and one value per desired percentile, each within [lower, upper], equal to lower below percentile 0 and to upper above percentile 1 |
| ResamplePercentiles.PercentileCount | lib/improver/ensemble_copula_coupling/ensemble_copula_coupling.py:249-251 | the number of percentiles is the one requested, or else the length of the input axis (the probability path applies the same default to its thresholds at lines 438-441) |
| ResamplePercentiles.SamplePercentiles | lib/improver/ensemble_copula_coupling/ensemble_copula_coupling.py:152-196 | the preallocate-and-fill loop computes exactly `ResampledForecast` |
| ResamplePercentiles.Process | lib/improver/ensemble_copula_coupling/ensemble_copula_coupling.py:214-263 | resamples at the percentiles created for the requested count; with no count given, the count is the input axis length |
| ResamplePercentiles.ResampledRowsAscending | lib/improver/ensemble_copula_coupling/ensemble_copula_coupling.py:189-196 | ascending desired percentiles give an ascending forecast at every grid point |
| ResamplePercentiles.ResampleAtOwnPercentilesIsIdentity | lib/improver/ensemble_copula_coupling/ensemble_copula_coupling.py:152-196 | resampling at the input's own strictly ascending interior percentiles returns the input unchanged |
| ResamplePercentiles.PaddedPercentilesStrictlyAscending | lib/improver/ensemble_copula_coupling/ensemble_copula_coupling.py:133-134 | padding strictly ascending interior percentiles with 0 and 1 keeps them strictly ascending |
| ResamplePercentiles.RowAtOwnPercentiles | lib/improver/ensemble_copula_coupling/ensemble_copula_coupling.py:193-196 | one padded row interpolated at its own strictly ascending interior percentiles is the row itself |
| ResamplePercentiles.ForecastAboveUpperBoundRejected | lib/improver/tests/ensemble_copula_coupling/ensemble_copula_coupling/test_ResamplePercentiles.py:116-130 | the forecast row [8, 10, 60] with bounds (-40, 50) is refused with the forecast error |
| ResamplePercentiles.DescendingPercentilesRejected | lib/improver/tests/ensemble_copula_coupling/ensemble_copula_coupling/test_ResamplePercentiles.py:132-144 | the percentiles [100, 0, -100] are refused with the percentile error |
| GeneratePercentilesFromProbabilities.AddBoundsToThresholdsAndProbabilities | lib/improver/ensemble_copula_coupling/ensemble_copula_coupling.py:289-329 | fails exactly when the thresholds are not ascending within the bounds; on success the axis is the padded thresholds (ascending) and every CDF row is padded with 0 and 1 |
| GeneratePercentilesFromProbabilities.ExceedanceToCdf | lib/improver/ensemble_copula_coupling/ensemble_copula_coupling.py:364 | same shape, and each CDF value plus its exceedance probability is 1 |
| GeneratePercentilesFromProbabilities.CdfAscendingIff | lib/improver/ensemble_copula_coupling/ensemble_copula_coupling.py:364-372 | every CDF row ascends exactly when no exceedance probability rises from one threshold to the next |
| GeneratePercentilesFromProbabilities.PercentilesFromProbabilities | lib/improver/ensemble_copula_coupling/ensemble_copula_coupling.py:331-383 | the CDF error happens exactly when some exceedance probability rises; the threshold error exactly when none rises but the thresholds are out of bounds or order; otherwise one row per grid point, one value per percentile, each within the bounds |
| GeneratePercentilesFromProbabilities.ProbabilitiesToPercentiles | lib/improver/ensemble_copula_coupling/ensemble_copula_coupling.py:331-383 | the check, pad and fill loop computes exactly `PercentilesFromProbabilities` |
| GeneratePercentilesFromProbabilities.ConvertedRow | lib/improver/ensemble_copula_coupling/ensemble_copula_coupling.py:374-383 | row i of a successful conversion is the padded thresholds interpolated at the percentiles along grid point i's padded CDF row |
| GeneratePercentilesFromProbabilities.Process | lib/improver/ensemble_copula_coupling/ensemble_copula_coupling.py:401-454 | converts at the percentiles created for the requested count; with no count given, the count is the number of thresholds |
| GeneratePercentilesFromProbabilities.PaddedCdfAscending | lib/improver/ensemble_copula_coupling/ensemble_copula_coupling.py:364-383 | with probabilities in [0, 1] and no rising exceedance, every padded CDF row ascends |
| GeneratePercentilesFromProbabilities.PercentileRowsAscending | lib/improver/ensemble_copula_coupling/ensemble_copula_coupling.py:374-383 | with probabilities in [0, 1], ascending percentiles give ascending values at every grid point |
| GeneratePercentilesFromProbabilities.ResamplingConvertedPercentilesIsIdentity | lib/improver/ensemble_copula_coupling/ensemble_copula_coupling.py:152-196 | percentiles produced from probabilities are returned unchanged when resampled at the same percentiles |
| GeneratePercentilesFromProbabilities.WorkedExample | lib/improver/tests/test_ensemble_copula_coupling_ResamplePercentiles.py:145-170 | thresholds [8, 10, 12], exceedance [0.95, 0.3, 0.05], bounds (-40, 50), percentiles [0.1, 0.5, 0.9] give [106/13, 122/13, 11.6] |
| GeneratePercentilesFromProbabilities.WorkedExampleRow | lib/improver/tests/test_ensemble_copula_coupling_ResamplePercentiles.py:145-170 | the interpolation step of the worked example on the padded CDF row |
| GeneratePercentilesFromProbabilities.WorkedExamplePadding | lib/improver/tests/test_ensemble_copula_coupling_ResamplePercentiles.py:145-170 | the CDF of the worked example is [0.05, 0.7, 0.95], and padding gives thresholds [-40, 8, 10, 12, 50] and CDF row [0, 0.05, 0.7, 0.95, 1] |
| GeneratePercentilesFromProbabilities.RisingExceedanceRejected | lib/improver/tests/test_ensemble_copula_coupling_ResamplePercentiles.py:172-194 | exceedance probabilities [0.05, 0.7, 0.95] are refused with the CDF error |
| GeneratePercentilesFromProbabilities.ThresholdAboveUpperBoundRejected | lib/improver/ensemble_copula_coupling/ensemble_copula_coupling.py:320-328 | a threshold of 60 with upper bound 50 is refused with the threshold error |
| EnsembleReordering.ExtractRealization | lib/improver/ensemble_copula_coupling/ensemble_copula_coupling.py:664-665 | extracting realization r finds the first member numbered r |
| EnsembleReordering.MismatchBetweenMembersAndPercentiles | lib/improver/ensemble_copula_coupling/ensemble_copula_coupling.py:621-671 | equal counts return the members unchanged; otherwise there are exactly plen outputs, output i being member `i % mlen`'s field renumbered i; no members at all is an error |
| EnsembleReordering.Insert | lib/improver/ensemble_copula_coupling/ensemble_copula_coupling.py:713-715 | inserting a position adds exactly that position to the list |
| EnsembleReordering.InsertKeepsLexOrder | lib/improver/ensemble_copula_coupling/ensemble_copula_coupling.py:713-715 | insertion keeps the list in strictly increasing lexsort order |
| EnsembleReordering.LexSort | lib/improver/ensemble_copula_coupling/ensemble_copula_coupling.py:713-715 | `np.lexsort` at a grid point returns n positions forming a permutation of 0..n-1 |
| EnsembleReordering.LexSortInOrder | lib/improver/ensemble_copula_coupling/ensemble_copula_coupling.py:713-715 | those positions are listed in strictly increasing order of (raw value, key, position) |
| EnsembleReordering.IndexOf | lib/improver/ensemble_copula_coupling/ensemble_copula_coupling.py:717 | finds the position of a value in a list |
| EnsembleReordering.ArgSort | lib/improver/ensemble_copula_coupling/ensemble_copula_coupling.py:717 | `np.argsort` of a permutation is its inverse: sigma[rank[v]] == v |
| EnsembleReordering.Ranking | lib/improver/ensemble_copula_coupling/ensemble_copula_coupling.py:713-717 | `np.argsort(np.lexsort(...))` gives every member a rank below n, and the member at that rank in lexsort order is the member itself |
| EnsembleReordering.Choose | lib/improver/ensemble_copula_coupling/ensemble_copula_coupling.py:720 | `np.choose` gives member k the post-processed value at rank k |
| EnsembleReordering.ReorderPoint | lib/improver/ensemble_copula_coupling/ensemble_copula_coupling.py:713-720 | `np.choose(np.argsort(np.lexsort(...)), calibrated)` at one grid point gives one value per member; which value each member gets is stated by `ReorderPointRanksMembers` |
| EnsembleReordering.LexSortRank | lib/improver/ensemble_copula_coupling/ensemble_copula_coupling.py:713-717 | the member at sorted position k has rank k |
| EnsembleReordering.ReorderPointRanksMembers | lib/improver/ensemble_copula_coupling/ensemble_copula_coupling.py:713-720 | the member with the k-th smallest raw value (ties by key, then position) receives the k-th post-processed value |
| EnsembleReordering.ChooseRespectsPermutation | lib/improver/ensemble_copula_coupling/ensemble_copula_coupling.py:720 | choosing along two index lists that are permutations of each other gives the same multiset of values |
| EnsembleReordering.ReorderPointIsPermutation | lib/improver/ensemble_copula_coupling/ensemble_copula_coupling.py:713-720 | at every grid point the reordered values are a permutation of the post-processed values |
| EnsembleReordering.ReorderPointKeepsRawOrder | lib/improver/ensemble_copula_coupling/ensemble_copula_coupling.py:713-720 | with ascending post-processed values, a member earlier in lexsort order (in particular one with a smaller raw value) never receives a larger value |
| EnsembleReordering.ReorderSlice | lib/improver/ensemble_copula_coupling/ensemble_copula_coupling.py:703-720 | one time slice: the reordered slice has the shape of the post-processed slice |
| EnsembleReordering.ReorderSliceColumns | lib/improver/ensemble_copula_coupling/ensemble_copula_coupling.py:718-720 | column p of a reordered slice is grid point p reordered on its own |
| EnsembleReordering.ReorderSliceIsPermutation | lib/improver/ensemble_copula_coupling/ensemble_copula_coupling.py:703-720 | in one reordered time slice, every grid point holds a permutation of its post-processed values |
| EnsembleReordering.RankEcc | lib/improver/ensemble_copula_coupling/ensemble_copula_coupling.py:673-722 | one reordered slice per time step, ranked by the raw data (or by `fake` with random ordering); at every time and grid point the result is a permutation of the post-processed values |
| RebadgePercentilesAsMembers.Arange | lib/improver/ensemble_copula_coupling/ensemble_copula_coupling.py:87 | `np.arange(n)` is 0, 1, ..., n-1 |
| RebadgePercentilesAsMembers.RebadgedCoords | lib/improver/ensemble_copula_coupling/ensemble_copula_coupling.py:68-89 | fails exactly when there is no percentile coordinate; otherwise "percentile" is gone, "realization" holds 0..n-1 for the n percentiles, and every other coordinate is kept |
| RebadgePercentilesAsMembers.RebadgeIsNotRepeatable | lib/improver/ensemble_copula_coupling/ensemble_copula_coupling.py:81-84 | a rebadged cube has no percentile coordinate, so rebadging it again is refused |
| RebadgePercentilesAsMembers.RebadgedRealizationsAscending | lib/improver/ensemble_copula_coupling/ensemble_copula_coupling.py:86-88 | the realization numbers strictly increase and are as many as the percentiles |
| RebadgePercentilesAsMembers.Process | lib/improver/ensemble_copula_coupling/ensemble_copula_coupling.py:68-89 | changes the cube's coordinates in place to `RebadgedCoords` (unchanged on the error), and never touches its data |
| Threshold.CheckSettings | lib/improver/utilities/threshold.py:68-77 | passes exactly for a nonzero threshold with no fuzzy factor or one strictly inside (0, 1); a zero threshold is reported first, then an out-of-range fuzzy factor |
| Threshold.Clip | lib/improver/utilities/threshold.py:116 | `np.clip(v, 0, 1)`: the result is in [0, 1], equal to v inside, 0 below, 1 above |
| Threshold.Crisp | lib/improver/utilities/threshold.py:108-109 | 1 when x > threshold, 0 otherwise, including at equality |
| Threshold.RampAsWritten | lib/improver/utilities/threshold.py:111-115 | the ramp as written is 0 at threshold * f, 1 at threshold * (2 - f) and 1/2 at the threshold, whatever the sign of the threshold |
| Threshold.TruthValueAsWritten | lib/improver/utilities/threshold.py:108-118 | the truth value as written lies in [0, 1]; without a fuzzy factor it is 1 exactly when x > threshold (x <= threshold when below_thresh_ok) and 0 otherwise, for a threshold of either sign |
| Threshold.BandLower | lib/improver/utilities/threshold.py:111 | the lower end of the fuzzy band lies below the threshold, and is threshold * f for a positive threshold |
| Threshold.BandUpper | lib/improver/utilities/threshold.py:114 | the upper end of the fuzzy band lies above the threshold, is threshold * (2 - f) for a positive threshold, and the band is centred on the threshold |
| Threshold.Ramp | lib/improver/utilities/threshold.py:111-115 | the corrected ramp is at most 0 up to the lower end of the band, at least 1 from its upper end, and 1/2 at the threshold |
| Threshold.TruthValue | lib/improver/utilities/threshold.py:108-118 | the truth value lies in [0, 1]; without a fuzzy factor it is 1 exactly when x > threshold (x <= threshold when below_thresh_ok) and 0 otherwise |
| Threshold.RampEnds | lib/improver/utilities/threshold.py:111-116 | a ramp from lo to hi is at most 0 up to lo, at least 1 from hi, and exactly 1/2 at the midpoint |
| Threshold.PositiveThresholdRamp | lib/improver/utilities/threshold.py:110-116 | for threshold t > 0 and fuzzy factor f: 0 for x <= t*f, 1 for x >= t*(2-f), 1/2 at x = t, and the unclipped ramp in between |
| Threshold.PositiveThresholdRampRises | lib/improver/utilities/threshold.py:110-116 | for a positive threshold the fuzzy truth value never falls as x rises |
| Threshold.BelowThreshOkComplements | lib/improver/utilities/threshold.py:117-118 | with below_thresh_ok the truth value is 1 minus the value without it |
| Threshold.TruthValueAgreesForPositiveThreshold | lib/improver/utilities/threshold.py:108-118 | for a positive threshold, or with no fuzzy factor, the corrected truth value equals the one computed as written |
| Threshold.FuzzyTruthValueProperties | lib/improver/utilities/threshold.py:110-116 | for a threshold of either sign the corrected fuzzy value is 0 below the band, 1 above it, 1/2 at the threshold, equal to the crisp value outside the band, and never falls as x rises |
| Threshold.NegativeThresholdRampInverted | lib/improver/utilities/threshold.py:110-116 | with threshold -10 and fuzzy factor 0.5, as written x = -20 gets 1 and x = 0 gets 0 (crisp gives 0 and 1); the corrected ramp gives 0 and 1 |
| Threshold.BasicThreshold.Create | lib/improver/utilities/threshold.py:48-78 | construction fails exactly when `CheckSettings` fails, with its error; otherwise a fresh plugin stores the three settings |
| Threshold.BasicThreshold.Process | lib/improver/utilities/threshold.py:87-120 | overwrites the cube's data in place with the truth value as written (`TruthValueAsWritten`) of every data value, each in [0, 1]; coordinates are untouched |

## Left out

- GeneratePercentilesFromMeanAndVariance is not modelled. It needs the Gaussian inverse CDF, a transcendental floating-point library call.
- `EnsembleReordering.process` is not modelled. It only chains the two modelled steps through cube plumbing.
- Iris cube plumbing is not modelled: `concatenate_cubes`, `convert_cube_data_to_2d`, reshaping the probabilistic dimension to the front, `create_cube_with_percentiles`, template cubes, cell methods, units and `slices_over`.
- The cube is reduced to a map from coordinate names to points plus a flat data sequence. Coordinate order and dimension structure are not represented.
- `create_percentiles` is a caller-supplied function, and the bounds of the distribution are caller-supplied numbers. The lookup table behind `get_bounds_of_distribution` is not part of this model.
- The `sampling` option only selects how `create_percentiles` builds the percentiles, so it is folded into that caller-supplied function.
- `np.random` in `rank_ecc` is not modelled. The tie-break data and the random primary key used with `random_ordering` are parameters, and no statistical property of the random order is stated.
- The NaN check in `BasicThreshold.process` is not modelled, because there is no NaN among the reals.
- Floating-point rounding is not modelled: all arithmetic is exact over the reals.
- Interpolation scans linearly for the segment. For an ascending axis this equals numpy's binary search. For a non-ascending padded CDF row (probabilities outside [0, 1], which the code does not refuse) numpy's segment choice may differ from the model's.
- Interpolation.Interp: its contract states the clamping and the range for ascending values only. Its value on a non-ascending axis is defined by its body and is not characterised further.
- ResamplePercentiles.ResampledForecast, GeneratePercentilesFromProbabilities.PercentilesFromProbabilities, ResamplePercentiles.SamplePercentiles, ResamplePercentiles.Process, GeneratePercentilesFromProbabilities.ProbabilitiesToPercentiles, GeneratePercentilesFromProbabilities.Process: these require every row to have one value per axis entry. In the code the cube's shape guarantees this.
- EnsembleReordering.MismatchBetweenMembersAndPercentiles: requires distinct realization numbers, which the realization dimension coordinate guarantees. The final `concatenate_cubes` is left out, so the result is the list of members and not a single cube.
- EnsembleReordering.RankEcc: requires equal numbers of time slices and of members in the raw and post-processed inputs. The code's `zip` would silently drop extra time slices, With more raw members than post-processed ones, `np.choose` raises on an out-of-range index. With fewer, its result has the raw member count, and assigning it to `calfc.data` raises on the shape. The final concatenation is left out. The input slice whose data the code overwrites is a copy, so that in-place update is modelled as building a new slice. It also does not model the limit numpy 1.x puts on `np.choose`: at most 31 choices (NPY_MAXARGS is 32, counting the index array). With 32 or more members, `rank_ecc` raises a ValueError, while the model reorders any number of members.
- RebadgePercentilesAsMembers.Process: if the cube already had a "realization" coordinate, iris would hold two coordinates of that name, while the map model keeps only the rebadged one.
- Threshold.BasicThreshold.constructor: requires valid settings. The error path of `__init__` is modelled by `Threshold.BasicThreshold.Create`.

## Findings

| source | as written | input that shows it | evidently intended | confidence | as-written member | corrected member |
|---|---|---|---|---|---|---|
| lib/improver/utilities/threshold.py:110-116 | the fuzzy ramp runs from 0 at threshold * f to 1 at threshold * (2 - f), which for a negative threshold is a decreasing ramp | threshold -10, fuzzy factor 0.5: x = -20 (below the threshold) gets 1 and x = 0 (above it) gets 0, the opposite of the crisp `x > threshold` | a ramp rising from the lower to the upper end of the band, so that values above the threshold count as above it whatever the threshold's sign (the constructor accepts negative thresholds) | not executed | Threshold.NegativeThresholdRampInverted | Threshold.FuzzyTruthValueProperties |
