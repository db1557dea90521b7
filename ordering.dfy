/**
 * What a query's `ORDER BY ... OFFSET ... LIMIT ...` and `WHERE` do to a
 * table: keep the rows that match, order them by an integer key (rows
 * with equal keys keep their table order), skip `offset`, take `limit`.
 */
module Ordering {

  predicate SortedBy<T>(s: seq<T>, key: T -> int) {
    forall i, j :: 0 <= i < j < |s| ==> key(s[i]) <= key(s[j])
  }

  /** Every element of a sequence holding `u` and `x` is bounded below by a bound of `u` and `x`. */
  lemma BoundedBelow<T>(lo: int, t: seq<T>, u: seq<T>, x: T, key: T -> int)
    requires multiset(t) == multiset(u) + multiset{x}
    requires lo <= key(x) && forall k :: 0 <= k < |u| ==> lo <= key(u[k])
    ensures forall k :: 0 <= k < |t| ==> lo <= key(t[k])
  {
    forall k | 0 <= k < |t| ensures lo <= key(t[k]) {
      assert t[k] in multiset(t);
      if t[k] != x {
        assert t[k] in multiset(u);
        var j :| 0 <= j < |u| && u[j] == t[k];
      }
    }
  }

  /** A sorted sequence stays sorted under a new first element no larger than any of it. */
  lemma SortedCons<T>(y: T, t: seq<T>, key: T -> int)
    requires SortedBy(t, key) && forall k :: 0 <= k < |t| ==> key(y) <= key(t[k])
    ensures SortedBy([y] + t, key)
  {
    var r := [y] + t;
    forall i, j | 0 <= i < j < |r| ensures key(r[i]) <= key(r[j]) {
      assert r[j] == t[j - 1];
      if i > 0 {
        assert r[i] == t[i - 1];
      }
    }
  }

  function InsertBy<T>(x: T, s: seq<T>, key: T -> int): (r: seq<T>)
    requires SortedBy(s, key)
    ensures SortedBy(r, key)
    ensures multiset(r) == multiset(s) + multiset{x}
    ensures |r| == |s| + 1
  {
    if |s| == 0 then [x]
    else if key(x) <= key(s[0]) then
      SortedCons(x, s, key);
      [x] + s
    else
      var tail := InsertBy(x, s[1..], key);
      assert s == [s[0]] + s[1..];
      BoundedBelow(key(s[0]), tail, s[1..], x, key);
      SortedCons(s[0], tail, key);
      [s[0]] + tail
  }

  /** A stable insertion sort by ascending key. */
  function SortBy<T>(s: seq<T>, key: T -> int): (r: seq<T>)
    ensures SortedBy(r, key)
    ensures multiset(r) == multiset(s)
    ensures |r| == |s|
  {
    if |s| == 0 then []
    else
      assert s == [s[0]] + s[1..];
      InsertBy(s[0], SortBy(s[1..], key), key)
  }

  /** The rows of `s` that satisfy `p`, in table order. */
  function Filter<T>(s: seq<T>, p: T -> bool): (r: seq<T>)
    ensures |r| <= |s|
    ensures forall k :: 0 <= k < |r| ==> p(r[k])
    ensures multiset(r) <= multiset(s)
    ensures forall x :: x in s && p(x) ==> x in r
  {
    if |s| == 0 then []
    else
      assert s == [s[0]] + s[1..];
      var rest := Filter(s[1..], p);
      if p(s[0]) then [s[0]] + rest else rest
  }

  /** Filtering a non-empty sequence looks at its first element, then at the rest. */
  lemma FilterCons<T>(s: seq<T>, p: T -> bool)
    requires |s| > 0
    ensures Filter(s, p) == (if p(s[0]) then [s[0]] else []) + Filter(s[1..], p)
  {
  }

  /** Filtering a sequence with one more element at the end. */
  lemma {:induction false} FilterSnoc<T>(s: seq<T>, x: T, p: T -> bool)
    ensures Filter(s + [x], p) == Filter(s, p) + (if p(x) then [x] else [])
    decreases |s|
  {
    var t := s + [x];
    if |s| == 0 {
      assert t[1..] == [];
    } else {
      assert t[0] == s[0] && t[1..] == s[1..] + [x];
      FilterSnoc(s[1..], x, p);
    }
  }

  /** `OFFSET offset LIMIT limit`. */
  function Page<T>(s: seq<T>, offset: nat, limit: nat): (r: seq<T>)
    ensures |r| <= limit
    ensures offset <= |s| ==> |r| == if |s| - offset < limit then |s| - offset else limit
    ensures offset <= |s| ==> r == s[offset..offset + |r|]
    ensures offset >= |s| ==> r == []
  {
    var rest := if offset <= |s| then s[offset..] else [];
    if |rest| <= limit then rest else rest[..limit]
  }

  /** A page holds elements of the sequence, in their order. */
  lemma PageFacts<T>(s: seq<T>, offset: nat, limit: nat, key: T -> int)
    ensures multiset(Page(s, offset, limit)) <= multiset(s)
    ensures SortedBy(s, key) ==> SortedBy(Page(s, offset, limit), key)
  {
    var r := Page(s, offset, limit);
    if offset <= |s| {
      assert s == s[..offset] + r + s[offset + |r|..];
      assert multiset(s) == multiset(s[..offset]) + multiset(r) + multiset(s[offset + |r|..]);
    }
  }

  /** What every element satisfies, every element of a sub-multiset satisfies. */
  lemma SubMultisetKeeps<T>(s: seq<T>, r: seq<T>, p: T -> bool)
    requires forall k :: 0 <= k < |s| ==> p(s[k])
    requires multiset(r) <= multiset(s)
    ensures forall k :: 0 <= k < |r| ==> p(r[k])
  {
    forall k | 0 <= k < |r| ensures p(r[k]) {
      assert r[k] in multiset(s);
      var j :| 0 <= j < |s| && s[j] == r[k];
    }
  }

  /** Every element of a sub-multiset is an element of the sequence. */
  lemma SubMultisetMembers<T>(s: seq<T>, r: seq<T>)
    requires multiset(r) <= multiset(s)
    ensures forall k :: 0 <= k < |r| ==> r[k] in s
  {
    forall k | 0 <= k < |r| ensures r[k] in s {
      assert r[k] in multiset(r);
    }
  }

  /** A page holding the whole filtered multiset holds every kept row. */
  lemma WholePageComplete<T>(s: seq<T>, keep: T -> bool, r: seq<T>)
    ensures multiset(r) == multiset(Filter(s, keep)) ==> forall x :: x in s && keep(x) ==> x in r
  {
    if multiset(r) == multiset(Filter(s, keep)) {
      forall x | x in s && keep(x) ensures x in r {
        assert x in multiset(Filter(s, keep));
        assert x in multiset(r);
      }
    }
  }

  /**
   * A first page of the kept rows in key order holds those with the least
   * keys: a kept row left out has a key no smaller than any row taken.
   */
  lemma FirstPageLeast<T>(s: seq<T>, keep: T -> bool, sorted: seq<T>, key: T -> int, offset: nat, limit: nat)
    requires multiset(sorted) == multiset(Filter(s, keep)) && SortedBy(sorted, key)
    ensures var r := Page(sorted, offset, limit);
      offset == 0 ==> forall x :: x in s && keep(x) && x !in r ==> forall k :: 0 <= k < |r| ==> key(r[k]) <= key(x)
  {
    var r := Page(sorted, offset, limit);
    if offset == 0 {
      forall x, k | x in s && keep(x) && x !in r && 0 <= k < |r| ensures key(r[k]) <= key(x) {
        assert x in multiset(Filter(s, keep));
        assert x in multiset(sorted);
        var j :| 0 <= j < |sorted| && sorted[j] == x;
        assert forall i :: 0 <= i < |r| ==> sorted[i] == r[i] != x;
        assert |r| <= j;
        assert r[k] == sorted[k];
      }
    }
  }

  /**
   * `r` is what `OFFSET offset LIMIT limit` leaves of the rows `keep`
   * admits, put in key order (ties in any order): the first `offset` of
   * them are skipped.
   */
  ghost predicate PageOfKept<T(!new)>(r: seq<T>, s: seq<T>, keep: T -> bool, key: T -> int, offset: nat, limit: nat) {
    exists t :: SortedBy(t, key) && multiset(t) == multiset(Filter(s, keep)) && r == Page(t, offset, limit)
  }

  /**
   * `WHERE keep ORDER BY key OFFSET offset LIMIT limit`: matching rows
   * only, in key order, as many as the page allows; a first page holds
   * every kept row when they fit, and the least-key ones when they do not.
   */
  function Query<T(!new)>(s: seq<T>, keep: T -> bool, key: T -> int, offset: nat, limit: nat): (r: seq<T>)
    ensures forall k :: 0 <= k < |r| ==> keep(r[k])
    ensures SortedBy(r, key)
    ensures multiset(r) <= multiset(s)
    ensures forall k :: 0 <= k < |r| ==> r[k] in s
    ensures |r| <= limit
    ensures var n := |Filter(s, keep)|;
      offset <= n ==> |r| == if n - offset < limit then n - offset else limit
    ensures offset == 0 && |Filter(s, keep)| <= limit ==> forall x :: x in s && keep(x) ==> x in r
    ensures offset == 0 ==> forall x :: x in s && keep(x) && x !in r ==> forall k :: 0 <= k < |r| ==> key(r[k]) <= key(x)
    ensures PageOfKept(r, s, keep, key, offset, limit)
  {
    var kept := Filter(s, keep);
    var sorted := SortBy(kept, key);
    var r := Page(sorted, offset, limit);
    PageFacts(sorted, offset, limit, key);
    SubMultisetKeeps(kept, r, keep);
    SubMultisetMembers(s, r);
    assert offset == 0 && |kept| <= limit ==> r == sorted[0..|sorted|] == sorted;
    WholePageComplete(s, keep, r);
    FirstPageLeast(s, keep, sorted, key, offset, limit);
    assert SortedBy(sorted, key) && multiset(sorted) == multiset(kept) && r == Page(sorted, offset, limit);
    r
  }

  /** A first page holds as many kept rows as fit. */
  lemma FirstPageSize<T(!new)>(s: seq<T>, keep: T -> bool, key: T -> int, limit: nat)
    ensures var n := |Filter(s, keep)|;
      |Query(s, keep, key, 0, limit)| == if n < limit then n else limit
  {
  }

  /** Reversing an integer key turns ascending into descending order. */
  lemma SortedByNegated<T>(s: seq<T>, key: T -> int, neg: T -> int)
    requires forall x :: neg(x) == -key(x)
    requires SortedBy(s, neg)
    ensures forall i, j :: 0 <= i < j < |s| ==> key(s[i]) >= key(s[j])
  {
  }
}
