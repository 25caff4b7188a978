/** Sequence filtering and a stable sort by an ordering relation: the two
    list operations (`Array.prototype.filter`, `Array.prototype.sort`) that the
    services and the client store rely on. */
module Sorting {

  /** Keeps the elements satisfying `p`, in their original order. */
  function Filter<T(!new)>(p: T -> bool, s: seq<T>): (r: seq<T>)
    ensures |r| <= |s|
    ensures forall x :: x in r <==> x in s && p(x)
  {
    if s == [] then [] else (if p(s[0]) then [s[0]] else []) + Filter(p, s[1..])
  }

  /** Filtering distributes over concatenation, so it keeps the relative order of what it keeps. */
  lemma {:induction false} FilterAppend<T(!new)>(p: T -> bool, a: seq<T>, b: seq<T>)
    ensures Filter(p, a + b) == Filter(p, a) + Filter(p, b)
  {
    if a == [] {
      assert a + b == b;
    } else {
      assert (a + b)[1..] == a[1..] + b;
      FilterAppend(p, a[1..], b);
    }
  }

  /** A filter that keeps every element is the identity. */
  lemma {:induction false} FilterKeepsAll<T(!new)>(p: T -> bool, s: seq<T>)
    requires forall x :: x in s ==> p(x)
    ensures Filter(p, s) == s
  {
    if s != [] {
      FilterKeepsAll(p, s[1..]);
    }
  }

  /** Filtering keeps every relation that holds between each element and those after it. */
  lemma {:induction false} FilterPairwise<T(!new)>(p: T -> bool, rel: (T, T) -> bool, s: seq<T>)
    requires forall i, j :: 0 <= i < j < |s| ==> rel(s[i], s[j])
    ensures forall i, j :: 0 <= i < j < |Filter(p, s)| ==> rel(Filter(p, s)[i], Filter(p, s)[j])
  {
    if s != [] {
      FilterPairwise(p, rel, s[1..]);
      var tail := Filter(p, s[1..]);
      assert forall i, j :: 0 <= i < j < |tail| ==> rel(tail[i], tail[j]);
      forall y | y in tail
        ensures rel(s[0], y)
      {
        var j :| 0 <= j < |s[1..]| && s[1..][j] == y;
        assert s[j + 1] == y;
      }
      var r := Filter(p, s);
      if p(s[0]) {
        assert r == [s[0]] + tail;
        forall i, j | 0 <= i < j < |r|
          ensures rel(r[i], r[j])
        {
          assert r[j] == tail[j - 1] && r[j] in tail;
          if i > 0 {
            assert r[i] == tail[i - 1];
          }
        }
      } else {
        assert r == tail;
      }
    }
  }

  /** `le` is total and transitive: `le(a, b)` means a may stand before b. */
  ghost predicate TotalPreorder<T(!new)>(le: (T, T) -> bool) {
    && (forall a, b :: le(a, b) || le(b, a))
    && (forall a, b, c :: le(a, b) && le(b, c) ==> le(a, c))
  }

  predicate SortedBy<T>(le: (T, T) -> bool, s: seq<T>) {
    forall i, j :: 0 <= i < j < |s| ==> le(s[i], s[j])
  }

  /** Inserts x after every element that may stand before it; equal elements keep their arrival order. */
  function InsertBy<T>(le: (T, T) -> bool, x: T, s: seq<T>): (r: seq<T>)
    ensures multiset(r) == multiset(s) + multiset{x}
    ensures |r| == |s| + 1
  {
    if s == [] then [x]
    else if le(s[0], x) then
      assert s == [s[0]] + s[1..];
      [s[0]] + InsertBy(le, x, s[1..])
    else [x] + s
  }

  lemma InsertByMembers<T(!new)>(le: (T, T) -> bool, x: T, s: seq<T>)
    ensures forall y :: y in InsertBy(le, x, s) <==> y == x || y in s
  {
    var r := InsertBy(le, x, s);
    assert forall y :: y in r <==> y in multiset(r);
    assert forall y :: y in s <==> y in multiset(s);
  }

  lemma {:induction false} InsertBySorted<T(!new)>(le: (T, T) -> bool, x: T, s: seq<T>)
    requires TotalPreorder(le)
    requires SortedBy(le, s)
    ensures SortedBy(le, InsertBy(le, x, s))
  {
    if s != [] {
      if le(s[0], x) {
        var rest := InsertBy(le, x, s[1..]);
        InsertBySorted(le, x, s[1..]);
        forall y | y in rest
          ensures le(s[0], y)
        {
          assert y in multiset(rest);
          if y != x {
            assert y in multiset(s[1..]);
            var j :| 0 <= j < |s[1..]| && s[1..][j] == y;
            assert s[j + 1] == y;
          }
        }
        var r := [s[0]] + rest;
        assert forall i :: 0 < i < |r| ==> r[i] == rest[i - 1] && r[i] in rest;
      } else {
        assert le(x, s[0]);
        var r := [x] + s;
        assert forall j :: 0 < j < |r| ==> r[j] == s[j - 1];
      }
    }
  }

  /** No element occurs twice. */
  ghost predicate Distinct<T>(s: seq<T>) {
    forall i, j :: 0 <= i < j < |s| ==> s[i] != s[j]
  }

  lemma InsertByDistinct<T>(le: (T, T) -> bool, x: T, s: seq<T>)
    requires Distinct(s)
    requires x !in s
    ensures Distinct(InsertBy(le, x, s))
  {
    var r := InsertBy(le, x, s);
    forall y | y in multiset(r)
      ensures multiset(r)[y] == 1
    {
      NoDuplicatesCount(s, y);
    }
    forall i, j | 0 <= i < j < |r|
      ensures r[i] != r[j]
    {
      if r[i] == r[j] {
        CountTwo(r, i, j);
      }
    }
  }

  /** In a sequence without duplicates every element occurs at most once. */
  lemma {:induction false} NoDuplicatesCount<T>(s: seq<T>, y: T)
    requires Distinct(s)
    ensures multiset(s)[y] <= 1
  {
    if s != [] {
      assert s == [s[0]] + s[1..];
      NoDuplicatesCount(s[1..], y);
      if s[0] == y {
        assert y !in s[1..];
      }
    }
  }

  /** Two positions holding the same value make it occur twice. */
  lemma {:induction false} CountTwo<T>(s: seq<T>, i: nat, j: nat)
    requires i < j < |s| && s[i] == s[j]
    ensures multiset(s)[s[i]] >= 2
  {
    assert s == s[..i] + [s[i]] + s[i + 1..j] + [s[j]] + s[j + 1..];
  }

  /** Stable insertion sort: the model of the JavaScript engine's (stable) `Array.prototype.sort`. */
  function SortBy<T>(le: (T, T) -> bool, s: seq<T>): (r: seq<T>)
    ensures multiset(r) == multiset(s)
    ensures |r| == |s|
  {
    if s == [] then []
    else
      assert s == s[..|s| - 1] + [s[|s| - 1]];
      InsertBy(le, s[|s| - 1], SortBy(le, s[..|s| - 1]))
  }

  lemma {:induction false} SortBySorted<T(!new)>(le: (T, T) -> bool, s: seq<T>)
    requires TotalPreorder(le)
    ensures SortedBy(le, SortBy(le, s))
  {
    if s != [] {
      SortBySorted(le, s[..|s| - 1]);
      InsertBySorted(le, s[|s| - 1], SortBy(le, s[..|s| - 1]));
    }
  }
}
