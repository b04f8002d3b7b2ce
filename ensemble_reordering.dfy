/**
 * The EnsembleReordering plugin: matches the raw ensemble to the number of
 * post-processed percentiles, then hands the post-processed values out to
 * the raw members so that, at every grid point, they keep the rank order of
 * the raw ensemble (Ensemble Copula Coupling).
 */
module EnsembleReordering {
  import opened Wrappers
  import opened Monotonic
  import opened EccUtilities

  /** One raw ensemble member: its realization number and its forecast field. */
  datatype Member = Member(realization: int, field: seq<real>)

  /** Realization numbers label members uniquely, as a dimension coordinate does. */
  predicate DistinctRealizations(members: seq<Member>) {
    forall i, j :: 0 <= i < j < |members| ==> members[i].realization != members[j].realization
  }

  /** `extract(iris.Constraint(realization=r))`: the position of the member numbered r. */
  function ExtractRealization(members: seq<Member>, r: int): (k: nat)
    requires exists i :: 0 <= i < |members| && members[i].realization == r
    ensures k < |members| && members[k].realization == r
    ensures forall i :: 0 <= i < k ==> members[i].realization != r
  {
    if members[0].realization == r then 0
    else
      assert exists i :: 0 <= i < |members[1..]| && members[1..][i].realization == r by {
        var i :| 0 <= i < |members| && members[i].realization == r;
        assert members[1..][i - 1] == members[i];
      }
      1 + ExtractRealization(members[1..], r)
  }

  /**
   * `mismatch_between_length_of_raw_members_and_percentiles`: with as many
   * percentiles as members the members are returned as they are; otherwise
   * output member i is the raw member at position `i % mlen`, renumbered i,
   * so members are recycled or only the first ones are used.
   */
  method MismatchBetweenMembersAndPercentiles(plen: nat, members: seq<Member>)
    returns (r: Result<seq<Member>, EccError>)
    requires DistinctRealizations(members)
    ensures plen == |members| ==> r == Success(members)
    ensures plen != |members| && |members| == 0 ==> r == Failure(NoRawMembers)
    ensures plen != |members| && |members| > 0 ==>
      && r.Success? && |r.value| == plen
      && forall i :: 0 <= i < plen ==> r.value[i] == Member(i, members[i % |members|].field)
  {
    if plen == |members| {
      return Success(members);
    }
    var mlen := |members|;
    if mlen == 0 {
      return Failure(NoRawMembers);
    }
    var mpoints := seq(mlen, k requires 0 <= k < mlen => members[k].realization);
    var realizationList: seq<int> := [];
    for index := 0 to plen
      invariant |realizationList| == index
      invariant forall k :: 0 <= k < index ==> realizationList[k] == members[k % mlen].realization
    {
      realizationList := realizationList + [mpoints[index % mlen]];
    }
    var extended: seq<Member> := [];
    for index := 0 to plen
      invariant |extended| == index
      invariant forall k :: 0 <= k < index ==> extended[k] == Member(k, members[k % mlen].field)
    {
      var realization := realizationList[index];
      var position := ExtractRealization(members, realization);
      extended := extended + [Member(index, members[position].field)];
    }
    return Success(extended);
  }

  /**
   * The order `np.lexsort((key, raw))` sorts members into at one grid point:
   * by raw value, ties by the tie-break key, remaining ties by position
   * (lexsort is stable).
   */
  predicate LexBefore(raw: seq<real>, key: seq<real>, i: nat, j: nat)
    requires i < |raw| && j < |raw| && |key| == |raw|
  {
    raw[i] < raw[j] || (raw[i] == raw[j] && (key[i] < key[j] || (key[i] == key[j] && i < j)))
  }

  /** Positions listed in strictly increasing lexsort order. */
  predicate InLexOrder(raw: seq<real>, key: seq<real>, s: seq<nat>)
    requires |key| == |raw| && forall k :: 0 <= k < |s| ==> s[k] < |raw|
  {
    forall a, b :: 0 <= a < b < |s| ==> LexBefore(raw, key, s[a], s[b])
  }

  /** 0, 1, ..., n - 1. */
  function Range(n: nat): (r: seq<nat>)
    ensures |r| == n && forall k :: 0 <= k < n ==> r[k] == k
  {
    if n == 0 then [] else Range(n - 1) + [n - 1]
  }

  /** Range(n + 1) adds n to Range(n). */
  lemma RangeExtends(n: nat)
    ensures multiset(Range(n + 1)) == multiset(Range(n)) + multiset{n}
  {
    assert Range(n + 1) == Range(n) + [n];
  }

  /** The lexsort order is transitive. */
  lemma LexBeforeTransitive(raw: seq<real>, key: seq<real>, i: nat, j: nat, k: nat)
    requires |key| == |raw| && i < |raw| && j < |raw| && k < |raw|
    requires LexBefore(raw, key, i, j) && LexBefore(raw, key, j, k)
    ensures LexBefore(raw, key, i, k)
  {
  }

  /** Inserts position x into a list kept in lexsort order. */
  function Insert(raw: seq<real>, key: seq<real>, s: seq<nat>, x: nat): (r: seq<nat>)
    requires |key| == |raw| && x < |raw| && forall k :: 0 <= k < |s| ==> s[k] < |raw|
    ensures |r| == |s| + 1
    ensures multiset(r) == multiset(s) + multiset{x}
    ensures forall k :: 0 <= k < |r| ==> r[k] < |raw|
    decreases |s|
  {
    if s == [] then [x]
    else if LexBefore(raw, key, x, s[0]) then
      [x] + s
    else
      assert s == [s[0]] + s[1..];
      [s[0]] + Insert(raw, key, s[1..], x)
  }

  /** Inserting a new position keeps a list in strictly increasing lexsort order. */
  lemma {:induction false} InsertKeepsLexOrder(raw: seq<real>, key: seq<real>, s: seq<nat>, x: nat)
    requires |key| == |raw| && x < |raw| && forall k :: 0 <= k < |s| ==> s[k] < |raw|
    requires InLexOrder(raw, key, s) && x !in s
    ensures InLexOrder(raw, key, Insert(raw, key, s, x))
    decreases |s|
  {
    if s != [] {
      var r := Insert(raw, key, s, x);
      if LexBefore(raw, key, x, s[0]) {
        forall a, b | 0 <= a < b < |r| ensures LexBefore(raw, key, r[a], r[b]) {
          if a == 0 && b > 1 {
            LexBeforeTransitive(raw, key, x, s[0], s[b - 1]);
          }
        }
      } else {
        var tail := Insert(raw, key, s[1..], x);
        InsertKeepsLexOrder(raw, key, s[1..], x);
        assert r == [s[0]] + tail;
        forall b | 0 < b < |r| ensures LexBefore(raw, key, s[0], r[b]) {
          assert r[b] in multiset(tail);
          if r[b] != x {
            assert r[b] in multiset(s[1..]);
            var m :| 0 <= m < |s[1..]| && s[1..][m] == r[b];
            assert s[m + 1] == r[b];
          }
        }
      }
    }
  }

  /**
   * `np.lexsort((key, raw), axis=0)` at one grid point, over the first n
   * members: a permutation of 0..n-1 in strictly increasing lexsort order.
   */
  function LexSort(raw: seq<real>, key: seq<real>, n: nat): (s: seq<nat>)
    requires |key| == |raw| && n <= |raw|
    ensures |s| == n
    ensures multiset(s) == multiset(Range(n))
    ensures forall k :: 0 <= k < |s| ==> s[k] < n
  {
    if n == 0 then []
    else
      var prev := LexSort(raw, key, n - 1);
      var s := Insert(raw, key, prev, n - 1);
      RangeExtends(n - 1);
      PermutationBounded(s, n);
      s
  }

  /** `LexSort` lists its positions in strictly increasing lexsort order. */
  lemma {:induction false} LexSortInOrder(raw: seq<real>, key: seq<real>, n: nat)
    requires |key| == |raw| && n <= |raw|
    ensures InLexOrder(raw, key, LexSort(raw, key, n))
  {
    if n > 0 {
      var last: nat := n - 1;
      var prev := LexSort(raw, key, last);
      LexSortInOrder(raw, key, last);
      assert forall k :: 0 <= k < |prev| ==> prev[k] < last;
      assert last !in prev;
      InsertKeepsLexOrder(raw, key, prev, last);
      assert LexSort(raw, key, n) == Insert(raw, key, prev, last);
    }
  }

  /** Position of value v in s. */
  function IndexOf(s: seq<nat>, v: nat): (k: nat)
    requires v in s
    ensures k < |s| && s[k] == v
  {
    if s[0] == v then 0 else 1 + IndexOf(s[1..], v)
  }

  /**
   * `np.argsort` of a permutation of 0..n-1: for each value, its position,
   * i.e. the inverse permutation.
   */
  function ArgSort(sigma: seq<nat>): (r: seq<nat>)
    requires forall v :: 0 <= v < |sigma| ==> v in sigma
    ensures |r| == |sigma|
    ensures forall v :: 0 <= v < |sigma| ==> r[v] < |sigma| && sigma[r[v]] == v
  {
    seq(|sigma|, v requires 0 <= v < |sigma| => IndexOf(sigma, v))
  }

  /** `np.choose(ranking, choices)` at one grid point. */
  function Choose(ranking: seq<nat>, choices: seq<real>): (r: seq<real>)
    requires forall k :: 0 <= k < |ranking| ==> ranking[k] < |choices|
    ensures |r| == |ranking| && forall k :: 0 <= k < |ranking| ==> r[k] == choices[ranking[k]]
  {
    seq(|ranking|, k requires 0 <= k < |ranking| => choices[ranking[k]])
  }

  /** A permutation of 0..n-1 holds nothing else. */
  lemma PermutationBounded(s: seq<nat>, n: nat)
    requires multiset(s) == multiset(Range(n))
    ensures forall k :: 0 <= k < |s| ==> s[k] < n
  {
    forall k | 0 <= k < |s| ensures s[k] < n {
      assert s[k] in multiset(Range(n));
    }
  }

  /** A permutation of 0..n-1 contains every one of them. */
  lemma PermutationCovers(s: seq<nat>, n: nat)
    requires multiset(s) == multiset(Range(n))
    ensures forall v :: 0 <= v < n ==> v in s
  {
    forall v | 0 <= v < n ensures v in s {
      assert Range(n)[v] == v;
      assert v in multiset(Range(n));
    }
  }

  /**
   * `np.argsort(np.lexsort(...))` at one grid point: the rank of every
   * member in lexsort order.
   */
  function Ranking(raw: seq<real>, key: seq<real>): (rank: seq<nat>)
    requires |key| == |raw|
    ensures |rank| == |raw|
    ensures forall v :: 0 <= v < |raw| ==> rank[v] < |raw| && LexSort(raw, key, |raw|)[rank[v]] == v
  {
    var sigma := LexSort(raw, key, |raw|);
    PermutationCovers(sigma, |raw|);
    ArgSort(sigma)
  }

  /**
   * `rank_ecc` at one grid point: the post-processed values `calibrated` are
   * handed to the members by rank, `np.choose(np.argsort(np.lexsort(...)), ...)`.
   */
  function ReorderPoint(raw: seq<real>, key: seq<real>, calibrated: seq<real>): (r: seq<real>)
    requires |key| == |raw| == |calibrated|
    ensures |r| == |raw|
  {
    Choose(Ranking(raw, key), calibrated)
  }

  /** Positions in lexsort order are distinct, so each member has one rank. */
  lemma LexSortRank(raw: seq<real>, key: seq<real>, k: nat)
    requires |key| == |raw| && k < |raw|
    ensures Ranking(raw, key)[LexSort(raw, key, |raw|)[k]] == k
  {
    var sigma := LexSort(raw, key, |raw|);
    var rank := Ranking(raw, key);
    LexSortInOrder(raw, key, |raw|);
    var j := rank[sigma[k]];
    assert sigma[j] == sigma[k];
    assert j == k;
  }

  /**
   * The member with the k-th smallest raw value (ties broken by the key,
   * then by position) receives the k-th post-processed value.
   */
  lemma ReorderPointRanksMembers(raw: seq<real>, key: seq<real>, calibrated: seq<real>, k: nat)
    requires |key| == |raw| == |calibrated| && k < |raw|
    ensures ReorderPoint(raw, key, calibrated)[LexSort(raw, key, |raw|)[k]] == calibrated[k]
  {
    LexSortRank(raw, key, k);
  }

  /** Choosing distributes over concatenation of index lists. */
  lemma ChooseConcat(a: seq<nat>, b: seq<nat>, choices: seq<real>)
    requires forall k :: 0 <= k < |a| ==> a[k] < |choices|
    requires forall k :: 0 <= k < |b| ==> b[k] < |choices|
    ensures Choose(a + b, choices) == Choose(a, choices) + Choose(b, choices)
  {
  }

  /** Choosing along a list with one more index adds that index's choice. */
  lemma ChooseSplice(left: seq<nat>, x: nat, right: seq<nat>, choices: seq<real>)
    requires forall k :: 0 <= k < |left| ==> left[k] < |choices|
    requires forall k :: 0 <= k < |right| ==> right[k] < |choices|
    requires x < |choices|
    ensures multiset(Choose(left + [x] + right, choices))
      == multiset(Choose(left + right, choices)) + multiset{choices[x]}
  {
    ChooseConcat(left + [x], right, choices);
    ChooseConcat(left, [x], choices);
    ChooseConcat(left, right, choices);
  }

  /** Choosing along a non-empty list: the first index's choice, then the rest. */
  lemma ChooseFirst(a: seq<nat>, choices: seq<real>)
    requires |a| > 0 && forall k :: 0 <= k < |a| ==> a[k] < |choices|
    ensures multiset(Choose(a, choices)) == multiset{choices[a[0]]} + multiset(Choose(a[1..], choices))
  {
    assert Choose(a, choices) == [choices[a[0]]] + Choose(a[1..], choices);
  }

  /** Removing one index from a list keeps every remaining index below the bound. */
  lemma RemovalKeepsBound(b: seq<nat>, j: nat, rest: seq<nat>, n: nat)
    requires j < |b| && rest == b[..j] + b[j + 1..]
    requires forall k :: 0 <= k < |b| ==> b[k] < n
    ensures forall k :: 0 <= k < |rest| ==> rest[k] < n
  {
    forall k | 0 <= k < |rest| ensures rest[k] < n {
      if k < j {
        assert rest[k] == b[k];
      } else {
        assert rest[k] == b[k + 1];
      }
    }
  }

  /** Taking the same value out of two equal multisets leaves equal multisets. */
  lemma RemoveMatching(a: seq<nat>, b: seq<nat>, j: nat)
    requires |a| > 0 && j < |b| && b[j] == a[0] && multiset(a) == multiset(b)
    ensures multiset(a[1..]) == multiset(b[..j] + b[j + 1..])
  {
    var rest := b[..j] + b[j + 1..];
    assert a == [a[0]] + a[1..];
    assert b == b[..j] + [b[j]] + b[j + 1..];
    assert multiset(b) == multiset(b[..j]) + multiset{b[j]} + multiset(b[j + 1..]);
    assert multiset(b) == multiset(rest) + multiset{b[j]};
    assert multiset(a) == multiset(a[1..]) + multiset{a[0]};
    assert multiset(rest) == multiset(b) - multiset{b[j]};
    assert multiset(a[1..]) == multiset(a) - multiset{a[0]};
  }

  /** Choosing along two index lists that are permutations of each other gives the same multiset. */
  lemma {:induction false} ChooseRespectsPermutation(a: seq<nat>, b: seq<nat>, choices: seq<real>)
    requires forall k :: 0 <= k < |a| ==> a[k] < |choices|
    requires forall k :: 0 <= k < |b| ==> b[k] < |choices|
    requires multiset(a) == multiset(b)
    ensures multiset(Choose(a, choices)) == multiset(Choose(b, choices))
    decreases |a|
  {
    if |a| == 0 {
      assert |multiset(b)| == 0;
      assert b == [];
    } else {
      var x := a[0];
      assert x in multiset(a);
      var j := IndexOf(b, x);
      var left, right := b[..j], b[j + 1..];
      RemoveMatching(a, b, j);
      RemovalKeepsBound(b, j, left + right, |choices|);
      ChooseRespectsPermutation(a[1..], left + right, choices);
      ChooseFirst(a, choices);
      assert b == left + [x] + right;
      ChooseSplice(left, x, right, choices);
    }
  }

  /** At every grid point the reordered values are a permutation of the post-processed ones. */
  lemma ReorderPointIsPermutation(raw: seq<real>, key: seq<real>, calibrated: seq<real>)
    requires |key| == |raw| == |calibrated|
    ensures multiset(ReorderPoint(raw, key, calibrated)) == multiset(calibrated)
  {
    var out := ReorderPoint(raw, key, calibrated);
    var sigma := LexSort(raw, key, |raw|);
    var n := |raw|;
    forall k | 0 <= k < n ensures out[sigma[k]] == calibrated[k] {
      ReorderPointRanksMembers(raw, key, calibrated, k);
    }
    assert Choose(sigma, out) == calibrated;
    assert Choose(Range(n), out) == out;
    ChooseRespectsPermutation(sigma, Range(n), out);
  }

  /**
   * With the post-processed values ascending, a member that comes earlier in
   * lexsort order (in particular, one with a smaller raw value) never
   * receives a larger value.
   */
  lemma ReorderPointKeepsRawOrder(raw: seq<real>, key: seq<real>, calibrated: seq<real>, i: nat, j: nat)
    requires |key| == |raw| == |calibrated| && i < |raw| && j < |raw|
    requires Ascending(calibrated) && LexBefore(raw, key, i, j)
    ensures ReorderPoint(raw, key, calibrated)[i] <= ReorderPoint(raw, key, calibrated)[j]
  {
    var sigma := LexSort(raw, key, |raw|);
    var rank := Ranking(raw, key);
    LexSortInOrder(raw, key, |raw|);
    AscendingIsSorted(calibrated);
    assert rank[i] <= rank[j];
  }

  /** Member-by-point values of one time slice: `field[member][point]`. */
  type Field = seq<seq<real>>

  /** The values of every member at one grid point. */
  function Column(a: Field, p: nat): (c: seq<real>)
    requires forall i :: 0 <= i < |a| ==> p < |a[i]|
    ensures |c| == |a| && forall i :: 0 <= i < |a| ==> c[i] == a[i][p]
  {
    seq(|a|, i requires 0 <= i < |a| => a[i][p])
  }

  /** Fields of the same member count and point count. */
  predicate SameShape(raw: Field, key: Field, calibrated: Field, points: nat) {
    |raw| == |key| == |calibrated| && Rectangular(raw, points) && Rectangular(key, points)
    && Rectangular(calibrated, points)
  }

  /** At every grid point, the members' values are a permutation of the post-processed ones. */
  predicate PermutedAtEveryPoint(result: Field, calibrated: Field, points: nat) {
    && Rectangular(result, points) && Rectangular(calibrated, points)
    && forall p :: 0 <= p < points ==> multiset(Column(result, p)) == multiset(Column(calibrated, p))
  }

  /** One time slice of `rank_ecc`: every grid point reordered on its own. */
  function ReorderSlice(raw: Field, key: Field, calibrated: Field, points: nat): (r: Field)
    requires SameShape(raw, key, calibrated, points)
    ensures |r| == |calibrated| && Rectangular(r, points)
  {
    seq(|calibrated|, i requires 0 <= i < |calibrated| =>
          seq(points, p requires 0 <= p < points =>
                ReorderPoint(Column(raw, p), Column(key, p), Column(calibrated, p))[i]))
  }

  /** Column p of a reordered slice is grid point p reordered on its own. */
  lemma ReorderSliceColumns(raw: Field, key: Field, calibrated: Field, points: nat, p: nat)
    requires SameShape(raw, key, calibrated, points) && p < points
    ensures Column(ReorderSlice(raw, key, calibrated, points), p)
         == ReorderPoint(Column(raw, p), Column(key, p), Column(calibrated, p))
  {
  }

  /** Each reordered slice is, at every grid point, a permutation of the post-processed values. */
  lemma ReorderSliceIsPermutation(raw: Field, key: Field, calibrated: Field, points: nat)
    requires SameShape(raw, key, calibrated, points)
    ensures PermutedAtEveryPoint(ReorderSlice(raw, key, calibrated, points), calibrated, points)
  {
    var slice := ReorderSlice(raw, key, calibrated, points);
    forall p | 0 <= p < points
      ensures multiset(Column(slice, p)) == multiset(Column(calibrated, p))
    {
      ReorderSliceColumns(raw, key, calibrated, points, p);
      ReorderPointIsPermutation(Column(raw, p), Column(key, p), Column(calibrated, p));
    }
  }

  /** Every time slice of the primary key, tie-break key and post-processed values has the same shape. */
  predicate SlicesMatch(primary: seq<Field>, key: seq<Field>, calibrated: seq<Field>, points: nat) {
    |primary| == |key| == |calibrated|
    && forall t :: 0 <= t < |primary| ==> SameShape(primary[t], key[t], calibrated[t], points)
  }

  /**
   * `rank_ecc`: for each time slice, the members are ranked by the raw data
   * (or, with `randomOrdering`, by the caller-supplied `fake` data) with the
   * tie-break `key`, the post-processed values are handed out by rank, and
   * the slice is appended to the results. At every time and grid point the
   * result is a permutation of the post-processed values.
   */
  method RankEcc(
    calibrated: seq<Field>, raw: seq<Field>, key: seq<Field>, fake: seq<Field>,
    randomOrdering: bool, points: nat
  ) returns (results: seq<Field>)
    requires SlicesMatch(raw, key, calibrated, points) && SlicesMatch(fake, key, calibrated, points)
    ensures |results| == |raw|
    ensures forall t :: 0 <= t < |raw| ==>
      results[t] == ReorderSlice(if randomOrdering then fake[t] else raw[t], key[t], calibrated[t], points)
    ensures forall t :: 0 <= t < |raw| ==> PermutedAtEveryPoint(results[t], calibrated[t], points)
  {
    var primary := if randomOrdering then fake else raw;
    results := [];
    for t := 0 to |raw|
      invariant |results| == t
      invariant forall s :: 0 <= s < t ==> results[s] == ReorderSlice(primary[s], key[s], calibrated[s], points)
    {
      var slice := ReorderSlice(primary[t], key[t], calibrated[t], points);
      results := results + [slice];
    }
    forall t | 0 <= t < |raw| ensures PermutedAtEveryPoint(results[t], calibrated[t], points) {
      ReorderSliceIsPermutation(primary[t], key[t], calibrated[t], points);
    }
  }
}
