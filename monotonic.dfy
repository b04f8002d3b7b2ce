/**
 * Ordering of one-dimensional samples as numpy's `np.any(np.diff(a) < 0)`
 * test sees it: only adjacent pairs are compared, and equal neighbours pass.
 */
module Monotonic {

  /** No adjacent pair strictly decreases. */
  predicate Ascending(s: seq<real>) {
    forall i :: 0 <= i < |s| - 1 ==> s[i] <= s[i + 1]
  }

  /** Every adjacent pair strictly increases. */
  predicate StrictlyAscending(s: seq<real>) {
    forall i :: 0 <= i < |s| - 1 ==> s[i] < s[i + 1]
  }

  /** Every sample is at most every later one. */
  predicate Sorted(s: seq<real>) {
    forall i, j :: 0 <= i <= j < |s| ==> s[i] <= s[j]
  }

  /** A row whose samples are ascending and all lie in [lo, hi]. */
  predicate AscendingWithin(s: seq<real>, lo: real, hi: real) {
    lo <= hi && Ascending(s) && forall k :: 0 <= k < |s| ==> lo <= s[k] <= hi
  }

  /** The adjacent-pair test decides global order. */
  lemma {:induction false} AscendingIsSorted(s: seq<real>)
    ensures Ascending(s) <==> Sorted(s)
  {
    if Ascending(s) && |s| > 1 {
      var t := s[..|s| - 1];
      assert Ascending(t);
      AscendingIsSorted(t);
      forall i, j | 0 <= i <= j < |s| ensures s[i] <= s[j] {
        if j < |s| - 1 {
          assert t[i] <= t[j];
        } else if i < j {
          assert t[i] <= t[|t| - 1];
        }
      }
    }
  }

  /**
   * Putting `lo` in front and `hi` at the back keeps a row ascending exactly
   * when the row is ascending, lies within [lo, hi] and lo <= hi: values equal
   * to a bound are accepted.
   */
  lemma PaddedAscending(s: seq<real>, lo: real, hi: real)
    ensures Ascending([lo] + s + [hi]) <==> AscendingWithin(s, lo, hi)
  {
    var p := [lo] + s + [hi];
    assert forall k :: 0 <= k < |s| ==> p[k + 1] == s[k];
    if Ascending(p) {
      AscendingIsSorted(p);
      assert p[0] <= p[|p| - 1];
      forall k | 0 <= k < |s| ensures lo <= s[k] <= hi {
        assert p[0] <= p[k + 1] <= p[|p| - 1];
      }
      forall i | 0 <= i < |s| - 1 ensures s[i] <= s[i + 1] {
        assert p[i + 1] <= p[i + 2];
      }
    }
    if AscendingWithin(s, lo, hi) {
      forall i | 0 <= i < |p| - 1 ensures p[i] <= p[i + 1] {
        if 0 < i < |p| - 2 {
          assert p[i] == s[i - 1] && p[i + 1] == s[i];
        }
      }
    }
  }
}
