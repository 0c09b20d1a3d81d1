/**
 The rows `buildModel` appends: `addPropertiesToModel` (a property row, then
 the rows of its sub-properties, depth first) and the category loop (a header
 row, then the rows of that category's properties).
 */
module Rows {
  import opened Options
  import opened Properties
  import opened Items
  import opened Grouping
  import opened Ordering

  /** The properties shown by the property rows whose parent is `parent`,
      in row order. */
  function ChildProperties(items: seq<Item>, parent: Option<nat>): seq<Property> {
    if items == [] then []
    else
      (if items[0].IsProperty() && items[0].parent == parent then [items[0].kind.property] else [])
        + ChildProperties(items[1..], parent)
  }

  /** The names of the category header rows, in row order. */
  function HeaderNames(items: seq<Item>): seq<Option<string>> {
    if items == [] then []
    else (if items[0].IsProperty() then [] else [items[0].name]) + HeaderNames(items[1..])
  }

  lemma {:induction false} ChildPropertiesAppend(a: seq<Item>, b: seq<Item>, parent: Option<nat>)
    ensures ChildProperties(a + b, parent) == ChildProperties(a, parent) + ChildProperties(b, parent)
  {
    if a == [] {
      assert a + b == b;
    } else {
      var h := if a[0].IsProperty() && a[0].parent == parent then [a[0].kind.property] else [];
      assert (a + b)[0] == a[0] && (a + b)[1..] == a[1..] + b;
      ChildPropertiesAppend(a[1..], b, parent);
      assert ChildProperties(a + b, parent) == h + ChildProperties(a[1..] + b, parent);
      assert ChildProperties(a, parent) == h + ChildProperties(a[1..], parent);
      assert h + (ChildProperties(a[1..], parent) + ChildProperties(b, parent))
          == (h + ChildProperties(a[1..], parent)) + ChildProperties(b, parent);
    }
  }

  lemma {:induction false} HeaderNamesAppend(a: seq<Item>, b: seq<Item>)
    ensures HeaderNames(a + b) == HeaderNames(a) + HeaderNames(b)
  {
    if a == [] {
      assert a + b == b;
    } else {
      var h := if a[0].IsProperty() then [] else [a[0].name];
      assert (a + b)[0] == a[0] && (a + b)[1..] == a[1..] + b;
      HeaderNamesAppend(a[1..], b);
      assert HeaderNames(a + b) == h + HeaderNames(a[1..] + b);
      assert HeaderNames(a) == h + HeaderNames(a[1..]);
      assert h + (HeaderNames(a[1..]) + HeaderNames(b)) == (h + HeaderNames(a[1..])) + HeaderNames(b);
    }
  }

  /** No property row hangs below `parent`. */
  lemma {:induction false} ChildPropertiesEmpty(items: seq<Item>, parent: Option<nat>)
    requires forall i :: 0 <= i < |items| && items[i].IsProperty() ==> items[i].parent != parent
    ensures ChildProperties(items, parent) == []
  {
    if items != [] {
      ChildPropertiesEmpty(items[1..], parent);
    }
  }

  /** Only property rows. */
  lemma {:induction false} HeaderNamesEmpty(items: seq<Item>)
    requires forall i :: 0 <= i < |items| ==> items[i].IsProperty()
    ensures HeaderNames(items) == []
  {
    if items != [] {
      HeaderNamesEmpty(items[1..]);
    }
  }

  /** The child lists of a block of rows add up from its three parts. */
  lemma {:induction false} ChildPropertiesOfParts(h: Item, subs: seq<Item>, rest: seq<Item>, k: Option<nat>)
    ensures ChildProperties([h] + subs + rest, k)
      == (if h.IsProperty() && h.parent == k then [h.kind.property] else [])
        + ChildProperties(subs, k) + ChildProperties(rest, k)
  {
    ChildPropertiesAppend([h] + subs, rest, k);
    ChildPropertiesAppend([h], subs, k);
    assert ChildProperties([h], k) == (if h.IsProperty() && h.parent == k then [h.kind.property] else [])
      + ChildProperties([], k);
  }

  /** A property row is among the children of its parent. */
  lemma {:induction false} ChildPropertiesContains(items: seq<Item>, i: nat)
    requires i < |items| && items[i].IsProperty()
    ensures items[i].kind.property in ChildProperties(items, items[i].parent)
  {
    if i > 0 {
      ChildPropertiesContains(items[1..], i - 1);
    }
  }

  /** `addPropertiesToModel(ps, parent)` with the model holding `base` rows
      already: for each property, a new row whose parent is `parent`,
      followed by the rows of its sub-properties, whose parent is that row. */
  function PropertyRows(ps: seq<Property>, parent: Option<nat>, base: nat): (rows: seq<Item>)
    decreases ps
  {
    if ps == [] then []
    else
      var subs := PropertyRows(ps[0].subProperties, Some(base), base + 1);
      [PropertyItem(ps[0], parent)] + subs + PropertyRows(ps[1..], parent, base + 1 + |subs|)
  }

  /** Rows that are new property items, each with `parent` or a row added
      before it (from `base` on) as its parent. */
  ghost predicate PropertyBlock(rows: seq<Item>, parent: Option<nat>, base: nat) {
    forall i :: 0 <= i < |rows| ==>
      && rows[i].IsProperty()
      && rows[i] == PropertyItem(rows[i].kind.property, rows[i].parent)
      && (rows[i].parent == parent || (rows[i].parent.Some? && base <= rows[i].parent.value < base + i))
  }

  lemma {:induction false} PropertyBlockOfParts(h: Item, subs: seq<Item>, rest: seq<Item>, parent: Option<nat>, base: nat)
    requires h.IsProperty() && h == PropertyItem(h.kind.property, parent)
    requires PropertyBlock(subs, Some(base), base + 1)
    requires PropertyBlock(rest, parent, base + 1 + |subs|)
    ensures PropertyBlock([h] + subs + rest, parent, base)
  {
    var rows := [h] + subs + rest;
    forall i | 0 <= i < |rows|
      ensures rows[i].IsProperty()
      ensures rows[i] == PropertyItem(rows[i].kind.property, rows[i].parent)
      ensures rows[i].parent == parent || (rows[i].parent.Some? && base <= rows[i].parent.value < base + i)
    {
      if 1 <= i < 1 + |subs| {
        assert rows[i] == subs[i - 1];
      } else if 1 + |subs| <= i {
        assert rows[i] == rest[i - 1 - |subs|];
      }
    }
  }

  /** Every row built is a new property item, and its parent is `parent` or
      a row added before it. */
  lemma {:induction false} PropertyRowsBlock(ps: seq<Property>, parent: Option<nat>, base: nat)
    ensures PropertyBlock(PropertyRows(ps, parent, base), parent, base)
    decreases ps
  {
    if ps != [] {
      var p := ps[0];
      var subs := PropertyRows(p.subProperties, Some(base), base + 1);
      PropertyRowsBlock(p.subProperties, Some(base), base + 1);
      PropertyRowsBlock(ps[1..], parent, base + 1 + |subs|);
      PropertyBlockOfParts(PropertyItem(p, parent), subs,
        PropertyRows(ps[1..], parent, base + 1 + |subs|), parent, base);
    }
  }

  /** No built row hangs below an item outside the block that is not
      `parent`. */
  lemma PropertyRowsNotBelow(ps: seq<Property>, parent: Option<nat>, base: nat, k: Option<nat>)
    requires k != parent
    requires k.None? || k.value < base || k.value >= base + |PropertyRows(ps, parent, base)|
    ensures ChildProperties(PropertyRows(ps, parent, base), k) == []
  {
    PropertyRowsBlock(ps, parent, base);
    ChildPropertiesEmpty(PropertyRows(ps, parent, base), k);
  }

  /** The first row of a non-empty forest, then the rows of its
      sub-properties, then the rows of the remaining properties. */
  lemma {:induction false} PropertyRowsUnfold(ps: seq<Property>, parent: Option<nat>, base: nat)
    requires ps != []
    ensures PropertyRows(ps, parent, base)
      == [PropertyItem(ps[0], parent)]
        + PropertyRows(ps[0].subProperties, Some(base), base + 1)
        + PropertyRows(ps[1..], parent, base + 1 + |PropertyRows(ps[0].subProperties, Some(base), base + 1)|)
  {
  }

  /** The properties shown by the property rows, in row order. */
  function ShownProperties(items: seq<Item>): seq<Property> {
    if items == [] then []
    else (if items[0].IsProperty() then [items[0].kind.property] else []) + ShownProperties(items[1..])
  }

  lemma {:induction false} ShownPropertiesAppend(a: seq<Item>, b: seq<Item>)
    ensures ShownProperties(a + b) == ShownProperties(a) + ShownProperties(b)
  {
    if a == [] {
      assert a + b == b;
    } else {
      var h := if a[0].IsProperty() then [a[0].kind.property] else [];
      assert (a + b)[0] == a[0] && (a + b)[1..] == a[1..] + b;
      ShownPropertiesAppend(a[1..], b);
      assert ShownProperties(a + b) == h + ShownProperties(a[1..] + b);
      assert ShownProperties(a) == h + ShownProperties(a[1..]);
      assert h + (ShownProperties(a[1..]) + ShownProperties(b)) == (h + ShownProperties(a[1..])) + ShownProperties(b);
    }
  }

  /** One step of the pre-order argument, on an abstract block. */
  lemma {:induction false} PreorderStep(rows: seq<Item>, h: Item, subs: seq<Item>, rest: seq<Item>,
                                        pre: seq<Property>, a: seq<Property>, b: seq<Property>)
    requires h.IsProperty()
    requires rows == [h] + subs + rest && pre == [h.kind.property] + a + b
    requires ShownProperties(subs) == a && ShownProperties(rest) == b
    ensures ShownProperties(rows) == pre
  {
    ShownPropertiesAppend([h] + subs, rest);
    ShownPropertiesAppend([h], subs);
    assert ShownProperties([h]) == [h.kind.property] + ShownProperties([]);
  }

  /** The rows show the properties in depth-first pre-order: each property
      is immediately followed by the rows of its sub-properties. */
  lemma {:induction false} PropertyRowsPreorder(ps: seq<Property>, parent: Option<nat>, base: nat)
    ensures ShownProperties(PropertyRows(ps, parent, base)) == Preorder(ps)
    decreases ps
  {
    if ps != [] {
      var subs := PropertyRows(ps[0].subProperties, Some(base), base + 1);
      var rest := PropertyRows(ps[1..], parent, base + 1 + |subs|);
      PropertyRowsUnfold(ps, parent, base);
      PropertyRowsPreorder(ps[0].subProperties, Some(base), base + 1);
      PropertyRowsPreorder(ps[1..], parent, base + 1 + |subs|);
      PreorderStep(PropertyRows(ps, parent, base), PropertyItem(ps[0], parent), subs, rest,
        Preorder(ps), Preorder(ps[0].subProperties), Preorder(ps[1..]));
    }
  }

  /** One step of the top-level argument, on an abstract block. */
  lemma {:induction false} TopLevelStep(rows: seq<Item>, h: Item, subs: seq<Item>, rest: seq<Item>,
                                        ps: seq<Property>, parent: Option<nat>)
    requires ps != [] && rows == [h] + subs + rest
    requires h.IsProperty() && h.parent == parent && h.kind.property == ps[0]
    requires ChildProperties(subs, parent) == []
    requires ChildProperties(rest, parent) == ps[1..]
    ensures ChildProperties(rows, parent) == ps
  {
    ChildPropertiesOfParts(h, subs, rest, parent);
    assert ps == [ps[0]] + ps[1..];
  }

  /** The rows whose parent is `parent` show exactly the given properties, in
      the given order. */
  lemma {:induction false} PropertyRowsTopLevel(ps: seq<Property>, parent: Option<nat>, base: nat)
    requires parent.None? || parent.value < base
    ensures ChildProperties(PropertyRows(ps, parent, base), parent) == ps
    decreases ps
  {
    if ps != [] {
      var subs := PropertyRows(ps[0].subProperties, Some(base), base + 1);
      var rest := PropertyRows(ps[1..], parent, base + 1 + |subs|);
      PropertyRowsUnfold(ps, parent, base);
      PropertyRowsNotBelow(ps[0].subProperties, Some(base), base + 1, parent);
      PropertyRowsTopLevel(ps[1..], parent, base + 1 + |subs|);
      TopLevelStep(PropertyRows(ps, parent, base), PropertyItem(ps[0], parent), subs, rest, ps, parent);
    }
  }

  /** The child list of a row outside the first row of a block adds up from
      the other two parts. */
  lemma {:induction false} ChildrenOfBlock(rows: seq<Item>, h: Item, subs: seq<Item>, rest: seq<Item>,
                                           k: Option<nat>, a: seq<Property>, b: seq<Property>)
    requires rows == [h] + subs + rest && h.parent != k
    requires ChildProperties(subs, k) == a && ChildProperties(rest, k) == b
    ensures ChildProperties(rows, k) == a + b
  {
    ChildPropertiesOfParts(h, subs, rest, k);
  }

  /** The child list of the first row of a block: nothing of the rest hangs
      below it. */
  lemma {:induction false} ChildrenAtHead(rows: seq<Item>, h: Item, subs: seq<Item>, rest: seq<Item>,
                                          k: Option<nat>, a: seq<Property>)
    requires rows == [h] + subs + rest && h.parent != k
    requires ChildProperties(subs, k) == a && ChildProperties(rest, k) == []
    ensures ChildProperties(rows, k) == a
  {
    ChildrenOfBlock(rows, h, subs, rest, k, a, []);
    assert a + [] == a;
  }

  /** The child list of a row among the middle rows of a block. */
  lemma {:induction false} ChildrenInMiddle(rows: seq<Item>, h: Item, subs: seq<Item>, rest: seq<Item>,
                                            j: nat, k: Option<nat>, a: seq<Property>)
    requires rows == [h] + subs + rest && 1 <= j <= |subs| && h.parent != k
    requires ChildProperties(subs, k) == a && ChildProperties(rest, k) == []
    ensures j < |rows| && rows[j] == subs[j - 1]
    ensures ChildProperties(rows, k) == a
  {
    ChildrenAtHead(rows, h, subs, rest, k, a);
  }

  /** The child list of a row among the last rows of a block. */
  lemma {:induction false} ChildrenInRest(rows: seq<Item>, h: Item, subs: seq<Item>, rest: seq<Item>,
                                          j: nat, k: Option<nat>, b: seq<Property>)
    requires rows == [h] + subs + rest && |subs| < j < |rows| && h.parent != k
    requires ChildProperties(subs, k) == [] && ChildProperties(rest, k) == b
    ensures rows[j] == rest[j - 1 - |subs|]
    ensures ChildProperties(rows, k) == b
  {
    ChildrenOfBlock(rows, h, subs, rest, k, [], b);
    assert [] + b == b;
  }

  /** The rows below the row at `base + j` show exactly the sub-properties of
      the property of that row, in order. */
  lemma {:induction false} PropertyRowsChildren(ps: seq<Property>, parent: Option<nat>, base: nat, j: nat)
    requires parent.None? || parent.value < base
    requires j < |PropertyRows(ps, parent, base)|
    ensures PropertyRows(ps, parent, base)[j].IsProperty()
    ensures ChildProperties(PropertyRows(ps, parent, base), Some(base + j))
      == PropertyRows(ps, parent, base)[j].kind.property.subProperties
    decreases ps, 1
  {
    var subs := PropertyRows(ps[0].subProperties, Some(base), base + 1);
    if j == 0 {
      ChildrenOfFirstRow(ps, parent, base);
    } else if j <= |subs| {
      ChildrenInSubRows(ps, parent, base, j);
    } else {
      ChildrenInLaterRows(ps, parent, base, j);
    }
  }

  lemma {:induction false} ChildrenOfFirstRow(ps: seq<Property>, parent: Option<nat>, base: nat)
    requires parent.None? || parent.value < base
    requires ps != []
    ensures PropertyRows(ps, parent, base)[0].IsProperty()
    ensures ChildProperties(PropertyRows(ps, parent, base), Some(base))
      == PropertyRows(ps, parent, base)[0].kind.property.subProperties
    decreases ps, 0
  {
    var subs := PropertyRows(ps[0].subProperties, Some(base), base + 1);
    var rest := PropertyRows(ps[1..], parent, base + 1 + |subs|);
    var h := PropertyItem(ps[0], parent);
    PropertyRowsUnfold(ps, parent, base);
    PropertyRowsTopLevel(ps[0].subProperties, Some(base), base + 1);
    PropertyRowsNotBelow(ps[1..], parent, base + 1 + |subs|, Some(base));
    ChildrenAtHead(PropertyRows(ps, parent, base), h, subs, rest, Some(base), ps[0].subProperties);
  }

  lemma {:induction false} ChildrenInSubRows(ps: seq<Property>, parent: Option<nat>, base: nat, j: nat)
    requires parent.None? || parent.value < base
    requires ps != [] && 1 <= j <= |PropertyRows(ps[0].subProperties, Some(base), base + 1)|
    ensures j < |PropertyRows(ps, parent, base)|
    ensures PropertyRows(ps, parent, base)[j].IsProperty()
    ensures ChildProperties(PropertyRows(ps, parent, base), Some(base + j))
      == PropertyRows(ps, parent, base)[j].kind.property.subProperties
    decreases ps, 0
  {
    var subs := PropertyRows(ps[0].subProperties, Some(base), base + 1);
    var rest := PropertyRows(ps[1..], parent, base + 1 + |subs|);
    var h := PropertyItem(ps[0], parent);
    PropertyRowsUnfold(ps, parent, base);
    PropertyRowsChildren(ps[0].subProperties, Some(base), base + 1, j - 1);
    PropertyRowsNotBelow(ps[1..], parent, base + 1 + |subs|, Some(base + j));
    var subsOfRow := subs[j - 1].kind.property.subProperties;
    ChildrenInMiddle(PropertyRows(ps, parent, base), h, subs, rest, j, Some(base + j), subsOfRow);
  }

  lemma {:induction false} ChildrenInLaterRows(ps: seq<Property>, parent: Option<nat>, base: nat, j: nat)
    requires parent.None? || parent.value < base
    requires ps != [] && |PropertyRows(ps[0].subProperties, Some(base), base + 1)| < j < |PropertyRows(ps, parent, base)|
    ensures PropertyRows(ps, parent, base)[j].IsProperty()
    ensures ChildProperties(PropertyRows(ps, parent, base), Some(base + j))
      == PropertyRows(ps, parent, base)[j].kind.property.subProperties
    decreases ps, 0
  {
    var subs := PropertyRows(ps[0].subProperties, Some(base), base + 1);
    var base' := base + 1 + |subs|;
    var rest := PropertyRows(ps[1..], parent, base');
    var h := PropertyItem(ps[0], parent);
    var j' := j - 1 - |subs|;
    PropertyRowsUnfold(ps, parent, base);
    PropertyRowsNotBelow(ps[0].subProperties, Some(base), base + 1, Some(base + j));
    PropertyRowsChildren(ps[1..], parent, base', j');
    assert base + j == base' + j';
    var subsOfRow := rest[j'].kind.property.subProperties;
    ChildrenInRest(PropertyRows(ps, parent, base), h, subs, rest, j, Some(base + j), subsOfRow);
  }
}
