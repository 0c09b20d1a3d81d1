/**
 Grouping properties by category: `getPropertyCategories` (the distinct
 categories in first-occurrence order) and `getPropertiesForCategory`.
 */
module Grouping {
  import opened Options
  import opened Properties
  import opened Seqs

  /** Each element occurs exactly once. */
  ghost predicate NoDuplicates<T>(s: seq<T>) {
    forall x | x in s :: multiset(s)[x] == 1
  }

  /** Multiplicity does not depend on the order of the elements. */
  lemma NoDuplicatesPermutation<T>(a: seq<T>, b: seq<T>)
    requires multiset(a) == multiset(b)
    requires NoDuplicates(a)
    ensures NoDuplicates(b)
  {
    forall x | x in b
      ensures multiset(b)[x] == 1
    {
      assert x in multiset(b);
    }
  }

  /** Scans `s` from left to right and keeps each element that has not been
      kept yet, as the `contains` check in the loop of
      `getPropertyCategories` does. */
  function Distinct<T(==,!new)>(s: seq<T>): (r: seq<T>)
    ensures NoDuplicates(r)
    ensures forall x :: x in r <==> x in s
    decreases |s|
  {
    if s == [] then []
    else
      var d := Distinct(s[..|s| - 1]);
      var x := s[|s| - 1];
      assert s == s[..|s| - 1] + [x];
      if x in d then d else d + [x]
  }

  /** The position of the first occurrence of `x` in `s`. */
  function FirstIndex<T(==)>(s: seq<T>, x: T): (k: nat)
    requires x in s
    ensures k < |s| && s[k] == x
    ensures forall i :: 0 <= i < k ==> s[i] != x
  {
    if s[0] == x then 0 else 1 + FirstIndex(s[1..], x)
  }

  /** Extending a sequence does not move the first occurrence of an element
      it already holds. */
  lemma {:induction false} FirstIndexPrefix<T>(s: seq<T>, t: seq<T>, x: T)
    requires x in s
    ensures FirstIndex(s + t, x) == FirstIndex(s, x)
  {
    var k := FirstIndex(s, x);
    var k' := FirstIndex(s + t, x);
    assert (s + t)[k] == x;
    assert k' <= k;
    assert s[k'] == x;
  }

  /** The kept elements appear in the order of their first occurrences. */
  lemma {:induction false} DistinctFirstOccurrenceOrder<T(!new)>(s: seq<T>)
    ensures forall i, j :: 0 <= i < j < |Distinct(s)| ==>
      FirstIndex(s, Distinct(s)[i]) < FirstIndex(s, Distinct(s)[j])
    decreases |s|
  {
    if s != [] {
      var init := s[..|s| - 1];
      var x := s[|s| - 1];
      var d := Distinct(init);
      DistinctFirstOccurrenceOrder(init);
      assert s == init + [x];
      forall y | y in d
        ensures FirstIndex(s, y) == FirstIndex(init, y)
      {
        FirstIndexPrefix(init, [x], y);
      }
      if x !in d {
        assert x !in init;
        assert FirstIndex(s, x) == |s| - 1;
      }
    }
  }

  /** `getPropertyCategories`: each category of the list exactly once, in
      first-occurrence order (null counts as a category). */
  function PropertyCategories(ps: seq<Property>): (r: seq<Option<string>>)
    ensures NoDuplicates(r)
    ensures forall c :: c in r <==> exists p :: p in ps && p.category == c
  {
    var cs := Categories(ps);
    assert forall c :: c in cs <==> exists p :: p in ps && p.category == c by {
      forall c | c in cs
        ensures exists p :: p in ps && p.category == c
      {
        var i :| 0 <= i < |cs| && cs[i] == c;
        assert ps[i] in ps;
      }
      forall c, p | p in ps && p.category == c
        ensures c in cs
      {
        var i :| 0 <= i < |ps| && ps[i] == p;
        assert cs[i] == c;
      }
    }
    Distinct(cs)
  }

  /** `getPropertiesForCategory`: the properties whose non-null category
      equals `c`, in list order; nothing for a null `c`. */
  function PropertiesForCategory(ps: seq<Property>, c: Option<string>): (r: seq<Property>)
    ensures |r| <= |ps|
    ensures forall p :: p in r <==> p in ps && p.category.Some? && p.category == c
    ensures c.None? ==> r == []
  {
    if ps == [] then []
    else
      assert ps == [ps[0]] + ps[1..];
      (if ps[0].category.Some? && ps[0].category == c then [ps[0]] else [])
        + PropertiesForCategory(ps[1..], c)
  }

  /** One step of `getPropertiesForCategory`'s loop. */
  lemma PropertiesForCategoryUnfold(ps: seq<Property>, c: Option<string>)
    requires ps != []
    ensures PropertiesForCategory(ps, c)
      == (if ps[0].category.Some? && ps[0].category == c then [ps[0]] else []) + PropertiesForCategory(ps[1..], c)
  {
  }

  /** Filtering a concatenation filters each part: the kept properties stay
      in list order. */
  lemma {:induction false} PropertiesForCategoryAppend(a: seq<Property>, b: seq<Property>, c: Option<string>)
    ensures PropertiesForCategory(a + b, c) == PropertiesForCategory(a, c) + PropertiesForCategory(b, c)
    decreases |a|
  {
    if a == [] {
      assert a + b == b;
    } else {
      var h: seq<Property> := if a[0].category.Some? && a[0].category == c then [a[0]] else [];
      assert (a + b)[0] == a[0];
      assert (a + b)[1..] == a[1..] + b;
      PropertiesForCategoryUnfold(a, c);
      PropertiesForCategoryUnfold(a + b, c);
      PropertiesForCategoryAppend(a[1..], b, c);
      ConcatAssoc(h, PropertiesForCategory(a[1..], c), PropertiesForCategory(b, c));
    }
  }

  /** A single property is kept exactly when its category is `c`. */
  lemma PropertiesForCategorySingle(p: Property, c: Option<string>)
    ensures PropertiesForCategory([p], c) == if p.category.Some? && p.category == c then [p] else []
  {
    assert [p][1..] == [];
  }

  /** Every matching property is kept as often as it occurs, and no other
      property is kept. */
  lemma {:induction false} PropertiesForCategoryCount(ps: seq<Property>, c: Option<string>, p: Property)
    ensures multiset(PropertiesForCategory(ps, c))[p]
      == if p.category.Some? && p.category == c then multiset(ps)[p] else 0
  {
    if ps != [] {
      assert ps == [ps[0]] + ps[1..];
      PropertiesForCategoryCount(ps[1..], c, p);
    }
  }
}
