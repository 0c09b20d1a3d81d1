/**
 Rows of a subtree stay together: `addPropertiesToModel` appends a row's
 sub-properties right after it, and the category loop appends a category's
 rows right after its header, so every row between a row and one of its
 children descends from that row.
 */
module Nesting {
  import opened Options
  import opened Properties
  import opened Items
  import opened Rows
  import opened CategoryView

  /** Between a row `k` of the block (from `base` on) and a child `j` of it,
      every row `m` hangs below `k` or below a row after `k`. */
  ghost predicate Nested(rows: seq<Item>, base: nat) {
    forall j :: 0 <= j < |rows| ==> NestedAbove(rows, base, j)
  }

  /** Every row `m` above row `j` and below the parent `k` of `j` (a row of
      the block) hangs below `k` or below a row after `k`. */
  ghost predicate NestedAbove(rows: seq<Item>, base: nat, j: nat)
    requires j < |rows|
  {
    forall m :: 0 <= m < j && rows[j].parent.Some? && base <= rows[j].parent.value < base + m ==>
      rows[m].parent.Some? && rows[j].parent.value <= rows[m].parent.value
  }

  /** Every row hangs below row `lo` or a later one. */
  ghost predicate ParentsFrom(rows: seq<Item>, lo: nat) {
    forall i :: 0 <= i < |rows| ==> rows[i].parent.Some? && lo <= rows[i].parent.value
  }

  /** No row hangs below a row from `lo` up to (not including) `hi`. */
  ghost predicate ParentsOutside(rows: seq<Item>, lo: nat, hi: nat) {
    forall i :: 0 <= i < |rows| ==> rows[i].parent.None? || rows[i].parent.value < lo || hi <= rows[i].parent.value
  }

  /** The rows of `addPropertiesToModel` below row `k` hang below `k` or
      a later row. */
  lemma PropertyRowsFrom(ps: seq<Property>, k: nat, base: nat)
    requires k < base
    ensures ParentsFrom(PropertyRows(ps, Some(k), base), k)
  {
    PropertyRowsBlock(ps, Some(k), base);
  }

  /** Nothing of `addPropertiesToModel` hangs below a row from `lo` on that
      was there before. */
  lemma PropertyRowsOutside(ps: seq<Property>, parent: Option<nat>, lo: nat, base: nat)
    requires parent.None? || parent.value < lo
    ensures ParentsOutside(PropertyRows(ps, parent, base), lo, base)
  {
    PropertyRowsBlock(ps, parent, base);
  }

  /** Nothing of the category loop hangs below a row that was there before. */
  lemma CategoryRowsOutside(cats: seq<Option<string>>, members: Option<string> -> seq<Property>, lo: nat, base: nat)
    ensures ParentsOutside(CategoryRows(cats, members, base), lo, base)
  {
    CategoryRowsBlock(cats, members, base);
  }

  /** In a nested model whose parents precede their children, every row
      between a row and one of its children descends from that row. */
  lemma {:induction false} NestedAncestry(items: seq<Item>, k: nat, m: nat, j: nat)
    requires WellFormed(items) && Nested(items, 0)
    requires k < m < j < |items| && items[j].parent == Some(k)
    ensures k in Ancestry(items, m)
    decreases m
  {
    assert NestedAbove(items, 0, j);
    assert items[m].parent.Some? && k <= items[m].parent.value;
    var p := items[m].parent.value;
    assert Ancestry(items, m) == [m] + Ancestry(items, p);
    if p != k {
      NestedAncestry(items, k, p, j);
    }
  }

  /** A first row, rows that hang below it or below each other, and rows
      that hang outside the block or below each other form a nested block. */
  lemma {:induction false} NestedOfParts(rows: seq<Item>, h: Item, subs: seq<Item>, rest: seq<Item>, base: nat)
    requires rows == [h] + subs + rest
    requires Nested(subs, base + 1) && Nested(rest, base + 1 + |subs|)
    requires ParentsFrom(subs, base) && ParentsOutside(rest, base, base + 1 + |subs|)
    ensures Nested(rows, base)
  {
    forall j | 0 <= j < |rows|
      ensures NestedAbove(rows, base, j)
    {
      forall m | 0 <= m < j && rows[j].parent.Some? && base <= rows[j].parent.value < base + m
        ensures rows[m].parent.Some? && rows[j].parent.value <= rows[m].parent.value
      {
        if j <= |subs| {
          NestedInSubs(rows, h, subs, rest, base, m, j);
        } else {
          NestedInRest(rows, h, subs, rest, base, m, j);
        }
      }
    }
  }

  lemma NestedInSubs(rows: seq<Item>, h: Item, subs: seq<Item>, rest: seq<Item>, base: nat, m: nat, j: nat)
    requires rows == [h] + subs + rest && Nested(subs, base + 1) && ParentsFrom(subs, base)
    requires m < j <= |subs| && rows[j].parent.Some? && base <= rows[j].parent.value < base + m
    ensures rows[m].parent.Some? && rows[j].parent.value <= rows[m].parent.value
  {
    assert rows[j] == subs[j - 1] && rows[m] == subs[m - 1];
    assert NestedAbove(subs, base + 1, j - 1);
  }

  lemma NestedInRest(rows: seq<Item>, h: Item, subs: seq<Item>, rest: seq<Item>, base: nat, m: nat, j: nat)
    requires rows == [h] + subs + rest && Nested(rest, base + 1 + |subs|)
    requires ParentsOutside(rest, base, base + 1 + |subs|)
    requires m < j < |rows| && |subs| < j && rows[j].parent.Some? && base <= rows[j].parent.value < base + m
    ensures rows[m].parent.Some? && rows[j].parent.value <= rows[m].parent.value
  {
    assert rows[j] == rest[j - 1 - |subs|];
    assert rows[m] == rest[m - 1 - |subs|];
    assert NestedAbove(rest, base + 1 + |subs|, j - 1 - |subs|);
  }

  /** The rows of `addPropertiesToModel` are nested. */
  lemma {:induction false} PropertyRowsNested(ps: seq<Property>, parent: Option<nat>, base: nat)
    requires parent.None? || parent.value < base
    ensures Nested(PropertyRows(ps, parent, base), base)
    decreases ps
  {
    if ps != [] {
      var subs := PropertyRows(ps[0].subProperties, Some(base), base + 1);
      var rest := PropertyRows(ps[1..], parent, base + 1 + |subs|);
      PropertyRowsUnfold(ps, parent, base);
      PropertyRowsFrom(ps[0].subProperties, base, base + 1);
      PropertyRowsOutside(ps[1..], parent, base, base + 1 + |subs|);
      PropertyRowsNested(ps[0].subProperties, Some(base), base + 1);
      PropertyRowsNested(ps[1..], parent, base + 1 + |subs|);
      NestedOfParts(PropertyRows(ps, parent, base), PropertyItem(ps[0], parent), subs, rest, base);
    }
  }

  /** The rows of the category loop are nested. */
  lemma {:induction false} CategoryRowsNested(cats: seq<Option<string>>, members: Option<string> -> seq<Property>, base: nat)
    ensures Nested(CategoryRows(cats, members, base), base)
    decreases cats
  {
    if cats != [] {
      var block := PropertyRows(members(cats[0]), Some(base), base + 1);
      var rest := CategoryRows(cats[1..], members, base + 1 + |block|);
      CategoryRowsUnfold(cats, members, base);
      PropertyRowsFrom(members(cats[0]), base, base + 1);
      CategoryRowsOutside(cats[1..], members, base, base + 1 + |block|);
      PropertyRowsNested(members(cats[0]), Some(base), base + 1);
      CategoryRowsNested(cats[1..], members, base + 1 + |block|);
      NestedOfParts(CategoryRows(cats, members, base), CategoryItem(cats[0], None), block, rest, base);
    }
  }
}
