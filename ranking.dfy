/** Ranking of scored entries: sort by score, highest first, and keep a prefix.
    The order among entries of equal score is left open: `IsTopK` says what every
    correct answer has in common, whatever order ties come out in. */
module Ranking {
  datatype Scored<T> = Scored(item: T, score: real)

  function Min(a: int, b: int): int
  {
    if a <= b then a else b
  }

  ghost predicate NonIncreasing<T>(s: seq<Scored<T>>)
  {
    forall i, j :: 0 <= i < j < |s| ==> s[i].score >= s[j].score
  }

  /** Places `x` in a list sorted highest score first, keeping it sorted. */
  function Insert<T(==)>(x: Scored<T>, s: seq<Scored<T>>): (r: seq<Scored<T>>)
    requires NonIncreasing(s)
    ensures NonIncreasing(r)
    ensures multiset(r) == multiset(s) + multiset{x}
    ensures |r| == |s| + 1
    ensures r[0] == x || (|s| > 0 && r[0] == s[0])
  {
    if s == [] || x.score >= s[0].score then
      ConsNonIncreasing(x, s);
      [x] + s
    else
      assert s == [s[0]] + s[1..];
      var tail := Insert(x, s[1..]);
      ConsNonIncreasing(s[0], tail);
      [s[0]] + tail
  }

  /** An entry scoring at least the head of a sorted list may go in front of it. */
  lemma ConsNonIncreasing<T>(head: Scored<T>, s: seq<Scored<T>>)
    requires NonIncreasing(s)
    requires s != [] ==> head.score >= s[0].score
    ensures NonIncreasing([head] + s)
  {
    forall i, j | 0 <= i < j < |[head] + s|
      ensures ([head] + s)[i].score >= ([head] + s)[j].score
    {
      if i == 0 {
        assert ([head] + s)[j] == s[j - 1];
      }
    }
  }

  /** The entries of `s` rearranged highest score first (the comparator of the source
      orders by score descending). */
  function SortDesc<T(==)>(s: seq<Scored<T>>): (r: seq<Scored<T>>)
    ensures NonIncreasing(r)
    ensures multiset(r) == multiset(s)
    ensures |r| == |s|
  {
    if s == [] then []
    else
      assert s == [s[0]] + s[1..];
      Insert(s[0], SortDesc(s[1..]))
  }

  /** The items of a scored list, in the same order. */
  function Items<T>(s: seq<Scored<T>>): seq<T>
  {
    seq(|s|, i requires 0 <= i < |s| => s[i].item)
  }

  /** `top` is a correct top-`k` answer for the entries `s`: as many entries as `k` and `s`
      allow, drawn from `s`, highest score first, and no entry left out scores above any
      entry kept. */
  ghost predicate IsTopK<T>(s: seq<Scored<T>>, k: nat, top: seq<Scored<T>>)
  {
    && |top| == Min(k, |s|)
    && multiset(top) <= multiset(s)
    && NonIncreasing(top)
    && forall e, j :: e in multiset(s) - multiset(top) && 0 <= j < |top| ==> e.score <= top[j].score
  }

  /** The first `k` entries after sorting, highest score first: what the source's
      sort-then-limit stream yields. */
  function TopK<T(==)>(s: seq<Scored<T>>, k: nat): (top: seq<Scored<T>>)
    ensures IsTopK(s, k, top)
  {
    TopOfSortedIsTopK(s, s, k);
    SortDesc(s)[..Min(k, |s|)]
  }

  /** Sorting the entries in ANY arrival order and keeping the first `k` gives a correct
      top-`k` answer; so the unspecified order in which entries reach the sort only
      affects the order among equal scores. */
  lemma TopOfSortedIsTopK<T>(s: seq<Scored<T>>, arrival: seq<Scored<T>>, k: nat)
    requires multiset(arrival) == multiset(s)
    ensures IsTopK(s, k, SortDesc(arrival)[..Min(k, |arrival|)])
  {
    var sorted := SortDesc(arrival);
    assert |sorted| == |arrival|;
    PrefixOfSortedIsTopK(s, sorted, k);
  }

  /** The first `k` entries of a descending arrangement of `s` are a correct top-`k` answer. */
  lemma PrefixOfSortedIsTopK<T>(s: seq<Scored<T>>, sorted: seq<Scored<T>>, k: nat)
    requires NonIncreasing(sorted) && multiset(sorted) == multiset(s)
    ensures IsTopK(s, k, sorted[..Min(k, |sorted|)])
  {
    var n := Min(k, |sorted|);
    assert |s| == |sorted| by {
      assert |multiset(sorted)| == |multiset(s)|;
    }
    SplitMultiset(s, sorted, n);
    SortedSplit(sorted, n);
  }

  /** Cutting an arrangement of `s` at `n`: the head is drawn from `s` and what it
      leaves out of `s` is exactly the tail. */
  lemma SplitMultiset<T>(s: seq<Scored<T>>, sorted: seq<Scored<T>>, n: nat)
    requires multiset(sorted) == multiset(s) && n <= |sorted|
    ensures multiset(sorted[..n]) <= multiset(s)
    ensures multiset(s) - multiset(sorted[..n]) == multiset(sorted[n..])
  {
    assert sorted == sorted[..n] + sorted[n..];
    assert multiset(s) == multiset(sorted[..n]) + multiset(sorted[n..]);
  }

  /** Cutting a sorted list keeps the head sorted and leaves nothing in the tail that
      scores above the head. */
  lemma SortedSplit<T>(sorted: seq<Scored<T>>, n: nat)
    requires NonIncreasing(sorted) && n <= |sorted|
    ensures NonIncreasing(sorted[..n])
    ensures forall e, j :: e in multiset(sorted[n..]) && 0 <= j < n ==> e.score <= sorted[..n][j].score
  {
    forall e, j | e in multiset(sorted[n..]) && 0 <= j < n
      ensures e.score <= sorted[..n][j].score
    {
      var i :| 0 <= i < |sorted[n..]| && sorted[n..][i] == e;
      assert sorted[n + i] == e;
    }
  }

  /** With room for every entry (`k >= |s|`), a correct top-`k` answer keeps them all. */
  lemma TopKKeepsEverythingWhenRoomy<T>(s: seq<Scored<T>>, k: nat, top: seq<Scored<T>>)
    requires IsTopK(s, k, top)
    requires |s| <= k
    ensures multiset(top) == multiset(s)
  {
    assert |multiset(top)| == |multiset(s)|;
    var d := multiset(s) - multiset(top);
    assert |multiset(s)| == |multiset(top)| + |d| by {
      assert multiset(s) == multiset(top) + d;
    }
    assert d == multiset{};
  }
}
