/**
 Comparator-based sorting as done by `Collections.sort`: a stable sort of a
 list under a `java.util.Comparator`, modelled as a function `(T, T) -> int`.
 */
module Sorting {

  function Sign(n: int): int {
    if n < 0 then -1 else if n > 0 then 1 else 0
  }

  /** The contract of `java.util.Comparator`: the sign flips when the
      arguments are swapped, and "not greater than" is transitive. Under it
      `cmp(x, y) <= 0` is a total preorder. */
  ghost predicate ValidComparator<T(!new)>(cmp: (T, T) -> int) {
    && (forall x, y :: Sign(cmp(x, y)) == -Sign(cmp(y, x)))
    && (forall x, y, z :: cmp(x, y) <= 0 && cmp(y, z) <= 0 ==> cmp(x, z) <= 0)
  }

  /** Every element is not greater than every later element. */
  ghost predicate SortedBy<T>(s: seq<T>, cmp: (T, T) -> int) {
    forall i, j :: 0 <= i < j < |s| ==> cmp(s[i], s[j]) <= 0
  }

  /** Inserts `x` after the leading elements that are not greater than it,
      so that it lands behind the elements it compares equal to. */
  function Insert<T>(x: T, s: seq<T>, cmp: (T, T) -> int): (r: seq<T>)
    ensures |r| == |s| + 1
    ensures multiset(r) == multiset(s) + multiset{x}
  {
    if s == [] then [x]
    else if cmp(x, s[0]) < 0 then [x] + s
    else
      assert s == [s[0]] + s[1..];
      [s[0]] + Insert(x, s[1..], cmp)
  }

  /** Stable insertion sort: each element, taken from left to right, is
      inserted behind every element already placed that compares equal. */
  function SortBy<T>(s: seq<T>, cmp: (T, T) -> int): (r: seq<T>)
    ensures |r| == |s|
    ensures multiset(r) == multiset(s)
  {
    if s == [] then []
    else
      assert s == s[..|s| - 1] + [s[|s| - 1]];
      Insert(s[|s| - 1], SortBy(s[..|s| - 1], cmp), cmp)
  }

  /** One use of the sign-flip rule: "not less" one way is "not greater"
      the other way. */
  lemma FlipNotLess<T(!new)>(cmp: (T, T) -> int, a: T, b: T)
    requires ValidComparator(cmp)
    requires cmp(a, b) >= 0
    ensures cmp(b, a) <= 0
  {
    assert Sign(cmp(a, b)) == -Sign(cmp(b, a));
  }

  /** Every element the insertion produces is `x` or came from `s`. */
  lemma {:induction false} InsertMembers<T>(x: T, s: seq<T>, cmp: (T, T) -> int)
    ensures forall y | y in Insert(x, s, cmp) :: y == x || y in s
  {
    forall y | y in Insert(x, s, cmp)
      ensures y == x || y in s
    {
      assert y in multiset(Insert(x, s, cmp));
    }
  }

  /** Prepending an element not greater than any other keeps a sequence
      ordered. */
  lemma ConsSorted<T>(h: T, t: seq<T>, cmp: (T, T) -> int)
    requires SortedBy(t, cmp)
    requires forall j :: 0 <= j < |t| ==> cmp(h, t[j]) <= 0
    ensures SortedBy([h] + t, cmp)
  {
    forall i, j | 0 <= i < j < |[h] + t|
      ensures cmp(([h] + t)[i], ([h] + t)[j]) <= 0
    {
      if i > 0 {
        assert ([h] + t)[i] == t[i - 1];
      }
      assert ([h] + t)[j] == t[j - 1];
    }
  }

  /** The first element of an ordered sequence is not greater than any
      element of the rest. */
  lemma FirstBelowRest<T>(s: seq<T>, cmp: (T, T) -> int)
    requires s != [] && SortedBy(s, cmp)
    ensures forall y | y in s[1..] :: cmp(s[0], y) <= 0
  {
    forall y | y in s[1..]
      ensures cmp(s[0], y) <= 0
    {
      var k :| 0 <= k < |s[1..]| && s[1..][k] == y;
      assert s[k + 1] == y;
    }
  }

  /** When `x` goes in front, it is not greater than anything behind it. */
  lemma InsertFront<T(!new)>(x: T, s: seq<T>, cmp: (T, T) -> int)
    requires ValidComparator(cmp)
    requires SortedBy(s, cmp)
    requires s != [] && cmp(x, s[0]) < 0
    ensures forall j :: 0 <= j < |s| ==> cmp(x, s[j]) <= 0
  {
    forall j | 0 <= j < |s|
      ensures cmp(x, s[j]) <= 0
    {
      if j > 0 {
        assert cmp(s[0], s[j]) <= 0;
      }
    }
  }

  lemma {:induction false} InsertSorted<T(!new)>(x: T, s: seq<T>, cmp: (T, T) -> int)
    requires ValidComparator(cmp)
    requires SortedBy(s, cmp)
    ensures SortedBy(Insert(x, s, cmp), cmp)
  {
    if s == [] {
    } else if cmp(x, s[0]) < 0 {
      InsertFront(x, s, cmp);
      ConsSorted(x, s, cmp);
    } else {
      var tail := Insert(x, s[1..], cmp);
      InsertSorted(x, s[1..], cmp);
      FlipNotLess(cmp, x, s[0]);
      InsertMembers(x, s[1..], cmp);
      FirstBelowRest(s, cmp);
      forall j | 0 <= j < |tail|
        ensures cmp(s[0], tail[j]) <= 0
      {
        assert tail[j] in tail;
      }
      ConsSorted(s[0], tail, cmp);
    }
  }

  /** The result is ordered by a valid comparator. */
  lemma {:induction false} SortBySorted<T(!new)>(s: seq<T>, cmp: (T, T) -> int)
    requires ValidComparator(cmp)
    ensures SortedBy(SortBy(s, cmp), cmp)
  {
    if s != [] {
      SortBySorted(s[..|s| - 1], cmp);
      InsertSorted(s[|s| - 1], SortBy(s[..|s| - 1], cmp), cmp);
    }
  }

  /** An element that no placed element is greater than goes last. */
  lemma {:induction false} InsertAfterAll<T>(x: T, s: seq<T>, cmp: (T, T) -> int)
    requires forall i :: 0 <= i < |s| ==> cmp(x, s[i]) >= 0
    ensures Insert(x, s, cmp) == s + [x]
  {
    if s != [] {
      InsertAfterAll(x, s[1..], cmp);
      assert s == [s[0]] + s[1..];
    }
  }

  /** No element is strictly smaller than an earlier one. */
  ghost predicate NoInversions<T>(s: seq<T>, cmp: (T, T) -> int) {
    forall i, j :: 0 <= i < j < |s| ==> cmp(s[j], s[i]) >= 0
  }

  /** The last element of a sequence without inversions is not smaller
      than any earlier one, and the rest has no inversions either. */
  lemma NoInversionsSplitLast<T>(s: seq<T>, cmp: (T, T) -> int)
    requires s != [] && NoInversions(s, cmp)
    ensures NoInversions(s[..|s| - 1], cmp)
    ensures forall i :: 0 <= i < |s| - 1 ==> cmp(s[|s| - 1], s[i]) >= 0
  {
  }

  /** One step of the induction below, stated on the parts of `s`. */
  lemma KeepsLastStep<T>(s: seq<T>, init: seq<T>, x: T, cmp: (T, T) -> int)
    requires s == init + [x]
    requires SortBy(init, cmp) == init
    requires forall i :: 0 <= i < |init| ==> cmp(x, init[i]) >= 0
    ensures SortBy(s, cmp) == s
  {
    InsertAfterAll(x, init, cmp);
    assert s[..|s| - 1] == init;
  }

  /** A sequence without inversions comes back unchanged: the sort is
      stable, so elements comparing equal are never swapped. */
  lemma {:induction false} SortByKeepsNoInversions<T>(s: seq<T>, cmp: (T, T) -> int)
    requires NoInversions(s, cmp)
    ensures SortBy(s, cmp) == s
  {
    if s != [] {
      NoInversionsSplitLast(s, cmp);
      SortByKeepsNoInversions(s[..|s| - 1], cmp);
      KeepsLastStep(s, s[..|s| - 1], s[|s| - 1], cmp);
    }
  }

  /** An ordered input comes back unchanged. */
  lemma SortByKeepsSorted<T(!new)>(s: seq<T>, cmp: (T, T) -> int)
    requires ValidComparator(cmp)
    requires SortedBy(s, cmp)
    ensures SortBy(s, cmp) == s
  {
    forall i, j | 0 <= i < j < |s|
      ensures cmp(s[j], s[i]) >= 0
    {
      assert Sign(cmp(s[i], s[j])) == -Sign(cmp(s[j], s[i]));
    }
    SortByKeepsNoInversions(s, cmp);
  }
}
