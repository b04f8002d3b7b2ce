/**
 * RebadgePercentilesAsMembers: turns the percentile coordinate of a cube into
 * a realization coordinate numbered 0, 1, ..., n - 1, so that percentiles can
 * be used as ensemble members without reordering.
 */
module RebadgePercentilesAsMembers {
  import opened Wrappers
  import opened EccUtilities
  import opened Cubes

  /** `np.arange(n)`: 0, 1, ..., n - 1. */
  function Arange(n: nat): (r: seq<real>)
    ensures |r| == n && forall k :: 0 <= k < n ==> r[k] == k as real
  {
    seq(n, k requires 0 <= k < n => k as real)
  }

  /**
   * The coordinates after rebadging: a missing percentile coordinate is an
   * error; otherwise its points become 0..n-1 under the name "realization"
   * and every other coordinate is kept.
   */
  function RebadgedCoords(coords: map<string, seq<real>>): (r: Result<map<string, seq<real>>, EccError>)
    ensures r.Failure? <==> "percentile" !in coords
    ensures r.Failure? ==> r.error == PercentileCoordinateMissing
    ensures r.Success? ==>
      && "percentile" !in r.value
      && "realization" in r.value
      && r.value["realization"] == Arange(|coords["percentile"]|)
      && (forall name :: name in coords && name != "percentile" && name != "realization" ==>
            name in r.value && r.value[name] == coords[name])
      && (forall name :: name in r.value ==> name == "realization" || name in coords)
  {
    if "percentile" !in coords then Failure(PercentileCoordinateMissing)
    else
      var n := |coords["percentile"]|;
      Success((coords - {"percentile"})["realization" := Arange(n)])
  }

  /** After a rebadge the percentile coordinate is gone, so a second rebadge is refused. */
  lemma RebadgeIsNotRepeatable(coords: map<string, seq<real>>)
    requires RebadgedCoords(coords).Success?
    ensures RebadgedCoords(RebadgedCoords(coords).value) == Failure(PercentileCoordinateMissing)
  {
  }

  /** The realization numbers are strictly increasing and as many as the percentiles were. */
  lemma RebadgedRealizationsAscending(coords: map<string, seq<real>>)
    requires "percentile" in coords
    ensures RebadgedCoords(coords).Success?
    ensures var points := RebadgedCoords(coords).value["realization"];
      |points| == |coords["percentile"]|
      && forall i, j :: 0 <= i < j < |points| ==> points[i] < points[j]
  {
  }

  /**
   * `RebadgePercentilesAsMembers.process`: renumbers and renames the
   * percentile coordinate of the cube in place; the data are untouched.
   */
  method Process(cube: Cube) returns (o: Outcome<EccError>)
    modifies cube
    ensures cube.data == old(cube.data)
    ensures RebadgedCoords(old(cube.coords)).Success? ==>
      o == Pass && cube.coords == RebadgedCoords(old(cube.coords)).value
    ensures RebadgedCoords(old(cube.coords)).Failure? ==>
      o == Fail(RebadgedCoords(old(cube.coords)).error) && cube.coords == old(cube.coords)
  {
    if "percentile" !in cube.coords {
      return Fail(PercentileCoordinateMissing);
    }
    var plen := |cube.coords["percentile"]|;
    cube.coords := cube.coords["percentile" := Arange(plen)];
    var points := cube.coords["percentile"];
    cube.coords := (cube.coords - {"percentile"})["realization" := points];
    return Pass;
  }
}
