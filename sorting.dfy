/**
 * Python's `sorted(iterable, key=...)`: a stable sort by a key. The model sorts
 * by the order `le` that the key induces (`le(a, b)` when the key of `a` is at
 * most the key of `b`), as a stable insertion sort over the iteration order
 * of the input.
 */
module Sorting {

  /** `le` is a total preorder: any two elements compare, and comparisons chain. */
  ghost predicate TotalPreorder<T(!new)>(le: (T, T) -> bool) {
    && (forall a, b :: le(a, b) || le(b, a))
    && (forall a, b, c :: le(a, b) && le(b, c) ==> le(a, c))
  }

  /** Every element is at most every later one. */
  ghost predicate SortedBy<T>(s: seq<T>, le: (T, T) -> bool) {
    forall i, j :: 0 <= i < j < |s| ==> le(s[i], s[j])
  }

  /**
   * Insert `x` in front of the first element it is at most, so that `x` comes
   * before the elements it ties with.
   */
  function Insert<T>(x: T, s: seq<T>, le: (T, T) -> bool): (r: seq<T>)
    ensures multiset(r) == multiset(s) + multiset{x}
    decreases |s|
  {
    if s == [] || le(x, s[0]) then [x] + s
    else
      var tail := Insert(x, s[1..], le);
      assert s == [s[0]] + s[1..];
      [s[0]] + tail
  }

  /** Insertion keeps a sorted sequence sorted. */
  lemma {:induction false} InsertSorted<T(!new)>(x: T, s: seq<T>, le: (T, T) -> bool)
    requires TotalPreorder(le) && SortedBy(s, le)
    ensures SortedBy(Insert(x, s, le), le)
    decreases |s|
  {
    if s == [] || le(x, s[0]) {
      var r := [x] + s;
      forall i, j | 0 <= i < j < |r|
        ensures le(r[i], r[j])
      {
        if i == 0 && j > 1 {
          assert le(s[0], s[j - 1]);
        }
      }
    } else {
      var tail := Insert(x, s[1..], le);
      InsertSorted(x, s[1..], le);
      var r := [s[0]] + tail;
      forall j | 0 < j < |r|
        ensures le(s[0], r[j])
      {
        assert r[j] in multiset(tail);
        if r[j] != x {
          assert r[j] in multiset(s[1..]);
          var k :| 0 <= k < |s[1..]| && s[1..][k] == r[j];
          assert le(s[0], s[k + 1]);
        }
      }
    }
  }

  /** `sorted(s, key=...)` on the elements of `s` in their iteration order. */
  function SortBy<T>(s: seq<T>, le: (T, T) -> bool): (r: seq<T>)
    ensures multiset(r) == multiset(s)
    decreases |s|
  {
    if s == [] then []
    else
      assert s == [s[0]] + s[1..];
      Insert(s[0], SortBy(s[1..], le), le)
  }

  /** The result of the sort is ordered by the key. */
  lemma {:induction false} SortBySorted<T(!new)>(s: seq<T>, le: (T, T) -> bool)
    requires TotalPreorder(le)
    ensures SortedBy(SortBy(s, le), le)
    decreases |s|
  {
    if s != [] {
      SortBySorted(s[1..], le);
      InsertSorted(s[0], SortBy(s[1..], le), le);
    }
  }

  /** Two sorted arrangements of one multiset start with the same element when no two distinct elements tie. */
  lemma SortedHeads<T(!new)>(r1: seq<T>, r2: seq<T>, le: (T, T) -> bool)
    requires r1 != [] && r2 != []
    requires SortedBy(r1, le) && SortedBy(r2, le) && multiset(r1) == multiset(r2)
    requires forall a, b :: a in r1 && b in r1 && le(a, b) && le(b, a) ==> a == b
    ensures r1[0] == r2[0]
  {
    assert r1[0] in multiset(r2) && r2[0] in multiset(r1);
    var i :| 0 <= i < |r2| && r2[i] == r1[0];
    var j :| 0 <= j < |r1| && r1[j] == r2[0];
    if i != 0 && j != 0 {
      assert le(r1[0], r1[j]) && le(r2[0], r2[i]);
    }
  }

  /**
   * When no two distinct elements tie, there is only one sorted arrangement of
   * a multiset: the sort does not depend on the order it was given the elements in.
   */
  lemma {:induction false} SortedUnique<T(!new)>(r1: seq<T>, r2: seq<T>, le: (T, T) -> bool)
    requires SortedBy(r1, le) && SortedBy(r2, le) && multiset(r1) == multiset(r2)
    requires forall a, b :: a in r1 && b in r1 && le(a, b) && le(b, a) ==> a == b
    ensures r1 == r2
    decreases |r1|
  {
    assert |r1| == |multiset(r1)| == |r2|;
    if r1 != [] {
      SortedHeads(r1, r2, le);
      assert r1 == [r1[0]] + r1[1..] && r2 == [r2[0]] + r2[1..];
      assert multiset(r1) == multiset{r1[0]} + multiset(r1[1..]);
      assert multiset(r2) == multiset{r1[0]} + multiset(r2[1..]);
      forall x ensures multiset(r1[1..])[x] == multiset(r2[1..])[x] {
        assert multiset(r1)[x] == multiset(r2)[x];
      }
      assert multiset(r1[1..]) == multiset(r2[1..]);
      assert forall a :: a in r1[1..] ==> a in r1;
      SortedUnique(r1[1..], r2[1..], le);
    }
  }
}
