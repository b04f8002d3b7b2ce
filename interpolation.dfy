/**
 * numpy's `np.interp(x, xp, fp)` on one query point: queries beyond either
 * end of `xp` take the end value of `fp`; otherwise the sample that opens the
 * segment holding `x` is found, and the result is the straight line through
 * that segment's two samples. The model finds the segment by scanning right
 * while `x` is at or above the next sample; on an ascending axis this is the
 * segment numpy's search picks (the last sample at or below `x`).
 */
module Interpolation {
  import opened Monotonic

  /**
   * The sample index that opens the segment holding `x`, scanning from `i`.
   * For an ascending axis it is the last sample at or below `x`, so among
   * equal axis samples the last one is taken.
   */
  function Bracket(x: real, xp: seq<real>, i: nat): (j: nat)
    requires 1 <= i <= |xp|
    requires xp[i - 1] <= x
    ensures i - 1 <= j < |xp|
    ensures xp[j] <= x
    ensures j == |xp| - 1 || x < xp[j + 1]
    ensures forall k :: i - 1 <= k <= j ==> xp[k] <= x
    decreases |xp| - i
  {
    if i < |xp| && xp[i] <= x then Bracket(x, xp, i + 1) else i - 1
  }

  /** The line through (x0, y0) and (x1, y1), evaluated at x. */
  function Lerp(x0: real, x1: real, y0: real, y1: real, x: real): (r: real)
    requires x0 < x1
    ensures x == x0 ==> r == y0
    ensures x == x1 ==> r == y1
  {
    var slope := (y1 - y0) / (x1 - x0);
    assert slope * (x1 - x0) == y1 - y0;
    slope * (x - x0) + y0
  }

  /** A product of two non-negative numbers is non-negative. */
  lemma ProductNonnegative(a: real, b: real)
    requires a >= 0.0 && b >= 0.0
    ensures a * b >= 0.0
  {
  }

  /** A non-negative number divided by a positive one is non-negative. */
  lemma QuotientNonnegative(a: real, d: real)
    requires a >= 0.0 && d > 0.0
    ensures a / d >= 0.0
  {
  }

  /** On its segment, the line lies between its two end values. */
  lemma LerpBetween(x0: real, x1: real, y0: real, y1: real, x: real)
    requires x0 < x1 && x0 <= x <= x1 && y0 <= y1
    ensures y0 <= Lerp(x0, x1, y0, y1, x) <= y1
  {
    var slope := (y1 - y0) / (x1 - x0);
    QuotientNonnegative(y1 - y0, x1 - x0);
    assert slope * (x1 - x0) == y1 - y0;
    ProductNonnegative(slope, x - x0);
    ProductNonnegative(slope, x1 - x);
    assert slope * (x1 - x0) == slope * (x - x0) + slope * (x1 - x);
    assert slope * (x - x0) <= y1 - y0;
    assert Lerp(x0, x1, y0, y1, x) == slope * (x - x0) + y0;
  }

  /** A line with non-negative slope does not decrease. */
  lemma LerpMonotone(x0: real, x1: real, y0: real, y1: real, x: real, y: real)
    requires x0 < x1 && y0 <= y1 && x <= y
    ensures Lerp(x0, x1, y0, y1, x) <= Lerp(x0, x1, y0, y1, y)
  {
    var slope := (y1 - y0) / (x1 - x0);
    QuotientNonnegative(y1 - y0, x1 - x0);
    ProductNonnegative(slope, y - x);
    assert slope * (y - x0) == slope * (x - x0) + slope * (y - x);
    assert Lerp(x0, x1, y0, y1, x) == slope * (x - x0) + y0;
    assert Lerp(x0, x1, y0, y1, y) == slope * (y - x0) + y0;
  }

  /** `np.interp` at one query point. */
  function Interp(x: real, xp: seq<real>, fp: seq<real>): (r: real)
    requires 0 < |xp| == |fp|
    ensures x > xp[|xp| - 1] ==> r == fp[|fp| - 1]
    ensures x <= xp[|xp| - 1] && x < xp[0] ==> r == fp[0]
    ensures Ascending(fp) ==> fp[0] <= r <= fp[|fp| - 1]
    ensures Ascending(xp) && x == xp[|xp| - 1] ==> r == fp[|fp| - 1]
  {
    var n := |xp|;
    if x > xp[n - 1] then
      AscendingIsSorted(fp);
      fp[n - 1]
    else if x < xp[0] then
      AscendingIsSorted(fp);
      AscendingIsSorted(xp);
      fp[0]
    else
      var j := Bracket(x, xp, 1);
      AscendingIsSorted(fp);
      AscendingIsSorted(xp);
      assert Ascending(xp) && x == xp[n - 1] ==> j == n - 1;
      if j == n - 1 || xp[j] == x then
        fp[j]
      else
        assert Ascending(fp) ==> fp[0] <= Lerp(xp[j], xp[j + 1], fp[j], fp[j + 1], x) <= fp[n - 1] by {
          if Ascending(fp) {
            assert fp[0] <= fp[j] && fp[j + 1] <= fp[n - 1];
            LerpBetween(xp[j], xp[j + 1], fp[j], fp[j + 1], x);
          }
        }
        Lerp(xp[j], xp[j + 1], fp[j], fp[j + 1], x)
  }

  /** `np.interp` over an array of query points. */
  function InterpAll(xs: seq<real>, xp: seq<real>, fp: seq<real>): (r: seq<real>)
    requires 0 < |xp| == |fp|
    ensures |r| == |xs|
    ensures forall q :: 0 <= q < |xs| ==> r[q] == Interp(xs[q], xp, fp)
  {
    seq(|xs|, q requires 0 <= q < |xs| => Interp(xs[q], xp, fp))
  }

  /**
   * Reference definition: on an ascending axis, a query in the segment
   * [xp[j], xp[j + 1]) gets the straight line through that segment.
   */
  lemma InterpOnSegment(x: real, xp: seq<real>, fp: seq<real>, j: nat)
    requires 0 < |xp| == |fp| && Ascending(xp)
    requires j + 1 < |xp| && xp[j] <= x < xp[j + 1]
    ensures Interp(x, xp, fp) == Lerp(xp[j], xp[j + 1], fp[j], fp[j + 1], x)
  {
    AscendingIsSorted(xp);
    var n := |xp|;
    assert xp[0] <= xp[j] && xp[j + 1] <= xp[n - 1];
    var b := Bracket(x, xp, 1);
    assert b == j;
  }

  /** On a strictly ascending axis, every sample is reproduced exactly. */
  lemma InterpAtSample(xp: seq<real>, fp: seq<real>, k: nat)
    requires 0 < |xp| == |fp| && StrictlyAscending(xp) && k < |xp|
    ensures Interp(xp[k], xp, fp) == fp[k]
  {
    AscendingIsSorted(xp);
    var n := |xp|;
    var x := xp[k];
    assert xp[0] <= x <= xp[n - 1];
    assert forall m :: k < m < n ==> x < xp[k + 1] <= xp[m];
    var b := Bracket(x, xp, 1);
    assert b == k;
  }

  /**
   * With an ascending axis and ascending values, a larger query never gives
   * a smaller result.
   */
  lemma InterpMonotone(x: real, y: real, xp: seq<real>, fp: seq<real>)
    requires 0 < |xp| == |fp| && Ascending(xp) && Ascending(fp) && x <= y
    ensures Interp(x, xp, fp) <= Interp(y, xp, fp)
  {
    var n := |xp|;
    AscendingIsSorted(xp);
    AscendingIsSorted(fp);
    if y > xp[n - 1] || x < xp[0] {
      // one end is clamped, and the other lies within [fp[0], fp[n - 1]]
    } else {
      var jx := Bracket(x, xp, 1);
      var jy := Bracket(y, xp, 1);
      assert jx <= jy;
      if jx < n - 1 && xp[jx] < x {
        LerpBetween(xp[jx], xp[jx + 1], fp[jx], fp[jx + 1], x);
      }
      if jy < n - 1 && xp[jy] < y {
        LerpBetween(xp[jy], xp[jy + 1], fp[jy], fp[jy + 1], y);
      }
      if jx == jy && jx < n - 1 && xp[jx] < x {
        LerpMonotone(xp[jx], xp[jx + 1], fp[jx], fp[jx + 1], x, y);
      } else if jx < jy {
        assert fp[jx + 1] <= fp[jy];
      }
    }
  }

  /** Ascending queries on ascending samples give ascending results. */
  lemma InterpAllAscending(xs: seq<real>, xp: seq<real>, fp: seq<real>)
    requires 0 < |xp| == |fp| && Ascending(xp) && Ascending(fp) && Ascending(xs)
    ensures Ascending(InterpAll(xs, xp, fp))
  {
    var r := InterpAll(xs, xp, fp);
    forall q | 0 <= q < |r| - 1 ensures r[q] <= r[q + 1] {
      InterpMonotone(xs[q], xs[q + 1], xp, fp);
    }
  }
}
