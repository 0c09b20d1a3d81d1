/**
 Stability of the sort: elements that compare equal keep the order they
 had in the input, as `Collections.sort` promises.
 */
module Stability {
  import opened Sorting
  import opened Seqs

  /** The elements of `s` that compare equal to `x`, in their order in `s`. */
  function Ties<T>(s: seq<T>, x: T, cmp: (T, T) -> int): seq<T> {
    if s == [] then []
    else (if cmp(s[0], x) == 0 then [s[0]] else []) + Ties(s[1..], x, cmp)
  }

  /** Appending one element appends it to the ties exactly when it compares
      equal to `x`. */
  lemma {:induction false} TiesAppendLast<T>(s: seq<T>, e: T, x: T, cmp: (T, T) -> int)
    ensures Ties(s + [e], x, cmp) == Ties(s, x, cmp) + if cmp(e, x) == 0 then [e] else []
    decreases |s|
  {
    if s == [] {
      assert [e][1..] == [];
    } else {
      var h: seq<T> := if cmp(s[0], x) == 0 then [s[0]] else [];
      var tail: seq<T> := if cmp(e, x) == 0 then [e] else [];
      assert (s + [e])[0] == s[0];
      assert (s + [e])[1..] == s[1..] + [e];
      TiesAppendLast(s[1..], e, x, cmp);
      ConcatAssoc(h, Ties(s[1..], x, cmp), tail);
    }
  }

  /** A sequence with no element comparing equal to `x` has no ties. */
  lemma {:induction false} NoTies<T>(s: seq<T>, x: T, cmp: (T, T) -> int)
    requires forall j :: 0 <= j < |s| ==> cmp(s[j], x) != 0
    ensures Ties(s, x, cmp) == []
    decreases |s|
  {
    if s != [] {
      NoTies(s[1..], x, cmp);
    }
  }

  /** When an element equal to `x` goes in front of an ordered sequence,
      nothing behind it compares equal to `x`. */
  lemma NothingTiedBehind<T(!new)>(e: T, t: seq<T>, x: T, cmp: (T, T) -> int)
    requires ValidComparator(cmp)
    requires SortedBy(t, cmp)
    requires t != [] && cmp(e, t[0]) < 0 && cmp(e, x) == 0
    ensures Ties(t, x, cmp) == []
  {
    assert Sign(cmp(e, x)) == -Sign(cmp(x, e));
    assert Sign(cmp(e, t[0])) == -Sign(cmp(t[0], e));
    forall j | 0 <= j < |t|
      ensures cmp(t[j], x) != 0
    {
      if j > 0 {
        assert cmp(t[0], t[j]) <= 0;
      }
    }
    NoTies(t, x, cmp);
  }

  /** The tail of an ordered sequence is ordered. */
  lemma SortedTail<T>(t: seq<T>, cmp: (T, T) -> int)
    requires t != [] && SortedBy(t, cmp)
    ensures SortedBy(t[1..], cmp)
  {
    forall i, j | 0 <= i < j < |t| - 1
      ensures cmp(t[1..][i], t[1..][j]) <= 0
    {
      assert t[1..][i] == t[i + 1] && t[1..][j] == t[j + 1];
    }
  }

  /** The ties of a sequence with a known first element. */
  lemma TiesCons<T>(h: T, r: seq<T>, x: T, cmp: (T, T) -> int)
    ensures Ties([h] + r, x, cmp) == (if cmp(h, x) == 0 then [h] else []) + Ties(r, x, cmp)
  {
    assert ([h] + r)[0] == h;
    assert ([h] + r)[1..] == r;
  }

  /** The insertion case that puts `e` in front, on the ties. */
  lemma TiesInsertFront<T>(e: T, t: seq<T>, x: T, cmp: (T, T) -> int)
    requires t != [] && cmp(e, t[0]) < 0
    requires cmp(e, x) == 0 ==> Ties(t, x, cmp) == []
    ensures Ties(Insert(e, t, cmp), x, cmp) == Ties(t, x, cmp) + if cmp(e, x) == 0 then [e] else []
  {
    assert Insert(e, t, cmp) == [e] + t;
    TiesCons(e, t, x, cmp);
  }

  /** Insertion behind the first element. */
  lemma InsertBehind<T>(e: T, t: seq<T>, cmp: (T, T) -> int)
    requires t != [] && cmp(e, t[0]) >= 0
    ensures Insert(e, t, cmp) == [t[0]] + Insert(e, t[1..], cmp)
  {
  }

  /** The insertion case that keeps `t[0]` in front, on the ties. */
  lemma TiesInsertBehind<T>(e: T, t: seq<T>, x: T, cmp: (T, T) -> int)
    requires t != [] && cmp(e, t[0]) >= 0
    requires Ties(Insert(e, t[1..], cmp), x, cmp) == Ties(t[1..], x, cmp) + if cmp(e, x) == 0 then [e] else []
    ensures Ties(Insert(e, t, cmp), x, cmp) == Ties(t, x, cmp) + if cmp(e, x) == 0 then [e] else []
  {
    var tail: seq<T> := if cmp(e, x) == 0 then [e] else [];
    var h: seq<T> := if cmp(t[0], x) == 0 then [t[0]] else [];
    var rest := Insert(e, t[1..], cmp);
    InsertBehind(e, t, cmp);
    TiesCons(t[0], rest, x, cmp);
    assert Ties(t, x, cmp) == h + Ties(t[1..], x, cmp);
    ConcatAssoc(h, Ties(t[1..], x, cmp), tail);
  }

  /** Inserting into an ordered sequence puts the new element behind every
      element that compares equal to it. */
  lemma {:induction false} InsertTies<T(!new)>(e: T, t: seq<T>, x: T, cmp: (T, T) -> int)
    requires ValidComparator(cmp)
    requires SortedBy(t, cmp)
    ensures Ties(Insert(e, t, cmp), x, cmp) == Ties(t, x, cmp) + if cmp(e, x) == 0 then [e] else []
    decreases |t|
  {
    if t == [] {
      assert [e][1..] == [];
    } else if cmp(e, t[0]) < 0 {
      if cmp(e, x) == 0 {
        NothingTiedBehind(e, t, x, cmp);
      }
      TiesInsertFront(e, t, x, cmp);
    } else {
      SortedTail(t, cmp);
      InsertTies(e, t[1..], x, cmp);
      TiesInsertBehind(e, t, x, cmp);
    }
  }

  /** The step of the stability induction, on the parts of `s`. */
  lemma StableStep<T>(s: seq<T>, init: seq<T>, last: T, sortedInit: seq<T>, x: T, cmp: (T, T) -> int)
    requires s != [] && init == s[..|s| - 1] && last == s[|s| - 1]
    requires sortedInit == SortBy(init, cmp)
    requires Ties(sortedInit, x, cmp) == Ties(init, x, cmp)
    requires Ties(Insert(last, sortedInit, cmp), x, cmp) == Ties(sortedInit, x, cmp) + if cmp(last, x) == 0 then [last] else []
    ensures Ties(SortBy(s, cmp), x, cmp) == Ties(s, x, cmp)
  {
    assert s == init + [last];
    TiesAppendLast(init, last, x, cmp);
  }

  /** The sort is stable: for every `x`, the elements comparing equal to `x`
      keep their relative order. */
  lemma {:induction false} SortByStable<T(!new)>(s: seq<T>, x: T, cmp: (T, T) -> int)
    requires ValidComparator(cmp)
    ensures Ties(SortBy(s, cmp), x, cmp) == Ties(s, x, cmp)
  {
    if s != [] {
      var init := s[..|s| - 1];
      var last := s[|s| - 1];
      SortByStable(init, x, cmp);
      SortBySorted(init, cmp);
      InsertTies(last, SortBy(init, cmp), x, cmp);
      StableStep(s, init, last, SortBy(init, cmp), x, cmp);
    }
  }
}
