/**
 The category loop of `buildModel`: for each category in turn, a header row
 with no parent, then the rows of the (sorted) properties of that category
 hanging below the header.
 */
module CategoryView {
  import opened Options
  import opened Properties
  import opened Items
  import opened Grouping
  import opened Ordering
  import opened Rows

  /** The properties listed below the header of category `c`: those of the
      whole property list whose category is `c`, each as often as it occurs
      there, in list order unless property sorting is on. */
  function Members(cfg: Config, ps: seq<Property>, c: Option<string>): (r: seq<Property>)
    ensures forall p :: p in r <==> p in ps && p.category.Some? && p.category == c
    ensures multiset(r) == multiset(PropertiesForCategory(ps, c))
    ensures !cfg.sortingProperties ==> r == PropertiesForCategory(ps, c)
  {
    var r := SortProperties(cfg, PropertiesForCategory(ps, c));
    assert forall p :: p in r <==> p in multiset(r);
    r
  }

  /** The rows of the category loop, with the model holding `base` rows
      already. */
  function CategoryRows(cats: seq<Option<string>>, members: Option<string> -> seq<Property>, base: nat): (rows: seq<Item>)
    decreases cats
  {
    if cats == [] then []
    else
      var block := PropertyRows(members(cats[0]), Some(base), base + 1);
      [CategoryItem(cats[0], None)] + block + CategoryRows(cats[1..], members, base + 1 + |block|)
  }

  lemma {:induction false} CategoryRowsUnfold(cats: seq<Option<string>>, members: Option<string> -> seq<Property>, base: nat)
    requires cats != []
    ensures CategoryRows(cats, members, base)
      == [CategoryItem(cats[0], None)]
        + PropertyRows(members(cats[0]), Some(base), base + 1)
        + CategoryRows(cats[1..], members, base + 1 + |PropertyRows(members(cats[0]), Some(base), base + 1)|)
  {
  }

  /** Rows that are new headers without a parent, or new property items
      whose parent is a row added before them (from `base` on). */
  ghost predicate CategoryBlock(rows: seq<Item>, base: nat) {
    forall i :: 0 <= i < |rows| ==>
      if rows[i].IsProperty() then
        && rows[i] == PropertyItem(rows[i].kind.property, rows[i].parent)
        && rows[i].parent.Some? && base <= rows[i].parent.value < base + i
      else
        rows[i] == CategoryItem(rows[i].name, None)
  }

  lemma {:induction false} CategoryBlockOfParts(h: Item, block: seq<Item>, rest: seq<Item>, base: nat)
    requires h == CategoryItem(h.name, None)
    requires PropertyBlock(block, Some(base), base + 1)
    requires CategoryBlock(rest, base + 1 + |block|)
    ensures CategoryBlock([h] + block + rest, base)
  {
    var rows := [h] + block + rest;
    forall i | 0 <= i < |rows|
      ensures if rows[i].IsProperty() then
          && rows[i] == PropertyItem(rows[i].kind.property, rows[i].parent)
          && rows[i].parent.Some? && base <= rows[i].parent.value < base + i
        else
          rows[i] == CategoryItem(rows[i].name, None)
    {
      if 1 <= i < 1 + |block| {
        assert rows[i] == block[i - 1];
      } else if 1 + |block| <= i {
        assert rows[i] == rest[i - 1 - |block|];
      }
    }
  }

  /** Every row of the category loop is a new header without a parent or a
      new property item below an earlier row. */
  lemma {:induction false} CategoryRowsBlock(cats: seq<Option<string>>, members: Option<string> -> seq<Property>, base: nat)
    ensures CategoryBlock(CategoryRows(cats, members, base), base)
    decreases cats
  {
    if cats != [] {
      var group := members(cats[0]);
      var block := PropertyRows(group, Some(base), base + 1);
      CategoryRowsUnfold(cats, members, base);
      PropertyRowsBlock(group, Some(base), base + 1);
      CategoryRowsBlock(cats[1..], members, base + 1 + |block|);
      CategoryBlockOfParts(CategoryItem(cats[0], None), block,
        CategoryRows(cats[1..], members, base + 1 + |block|), base);
    }
  }

  /** No property row of the category loop hangs below a row outside it. */
  lemma CategoryRowsNotBelow(cats: seq<Option<string>>, members: Option<string> -> seq<Property>, base: nat, k: Option<nat>)
    requires k.None? || k.value < base
    ensures ChildProperties(CategoryRows(cats, members, base), k) == []
  {
    CategoryRowsBlock(cats, members, base);
    ChildPropertiesEmpty(CategoryRows(cats, members, base), k);
  }

  /** One step of the header argument, on an abstract block. */
  lemma {:induction false} HeadersStep(rows: seq<Item>, h: Item, block: seq<Item>, rest: seq<Item>,
                                       cats: seq<Option<string>>)
    requires cats != [] && rows == [h] + block + rest
    requires !h.IsProperty() && h.name == cats[0]
    requires HeaderNames(block) == [] && HeaderNames(rest) == cats[1..]
    ensures HeaderNames(rows) == cats
  {
    HeaderNamesAppend([h] + block, rest);
    HeaderNamesAppend([h], block);
    assert HeaderNames([h]) == [h.name] + HeaderNames([]);
    assert cats == [cats[0]] + cats[1..];
  }

  /** The category loop adds one header per category, in the given order. */
  lemma {:induction false} CategoryRowsHeaders(cats: seq<Option<string>>, members: Option<string> -> seq<Property>, base: nat)
    ensures HeaderNames(CategoryRows(cats, members, base)) == cats
    decreases cats
  {
    if cats != [] {
      var group := members(cats[0]);
      var block := PropertyRows(group, Some(base), base + 1);
      var rest := CategoryRows(cats[1..], members, base + 1 + |block|);
      CategoryRowsUnfold(cats, members, base);
      PropertyRowsBlock(group, Some(base), base + 1);
      HeaderNamesEmpty(block);
      CategoryRowsHeaders(cats[1..], members, base + 1 + |block|);
      HeadersStep(CategoryRows(cats, members, base), CategoryItem(cats[0], None), block, rest, cats);
    }
  }

  /** What the rows below a row show: a property row's sub-properties, a
      header's category members. */
  function ExpectedChildren(members: Option<string> -> seq<Property>, it: Item): seq<Property> {
    if it.IsProperty() then it.kind.property.subProperties else members(it.name)
  }

  /** The rows below the row at `base + j` show exactly what that row
      stands for, in order. */
  lemma {:induction false} CategoryRowsChildren(cats: seq<Option<string>>, members: Option<string> -> seq<Property>,
                                                base: nat, j: nat)
    requires j < |CategoryRows(cats, members, base)|
    ensures ChildProperties(CategoryRows(cats, members, base), Some(base + j))
      == ExpectedChildren(members, CategoryRows(cats, members, base)[j])
    decreases cats, 1
  {
    var block := PropertyRows(members(cats[0]), Some(base), base + 1);
    if j == 0 {
      HeaderChildren(cats, members, base);
    } else if j <= |block| {
      ChildrenInBlock(cats, members, base, j);
    } else {
      ChildrenInLaterCategories(cats, members, base, j);
    }
  }

  lemma {:induction false} HeaderChildren(cats: seq<Option<string>>, members: Option<string> -> seq<Property>, base: nat)
    requires cats != []
    ensures ChildProperties(CategoryRows(cats, members, base), Some(base))
      == ExpectedChildren(members, CategoryRows(cats, members, base)[0])
    decreases cats, 0
  {
    var group := members(cats[0]);
    var block := PropertyRows(group, Some(base), base + 1);
    var rest := CategoryRows(cats[1..], members, base + 1 + |block|);
    var h := CategoryItem(cats[0], None);
    CategoryRowsUnfold(cats, members, base);
    PropertyRowsTopLevel(group, Some(base), base + 1);
    CategoryRowsNotBelow(cats[1..], members, base + 1 + |block|, Some(base));
    ChildrenAtHead(CategoryRows(cats, members, base), h, block, rest, Some(base), group);
  }

  lemma {:induction false} ChildrenInBlock(cats: seq<Option<string>>, members: Option<string> -> seq<Property>,
                                           base: nat, j: nat)
    requires cats != []
    requires 1 <= j <= |PropertyRows(members(cats[0]), Some(base), base + 1)|
    ensures j < |CategoryRows(cats, members, base)|
    ensures ChildProperties(CategoryRows(cats, members, base), Some(base + j))
      == ExpectedChildren(members, CategoryRows(cats, members, base)[j])
    decreases cats, 0
  {
    var group := members(cats[0]);
    var block := PropertyRows(group, Some(base), base + 1);
    var rest := CategoryRows(cats[1..], members, base + 1 + |block|);
    var h := CategoryItem(cats[0], None);
    CategoryRowsUnfold(cats, members, base);
    PropertyRowsChildren(group, Some(base), base + 1, j - 1);
    CategoryRowsNotBelow(cats[1..], members, base + 1 + |block|, Some(base + j));
    var subs := block[j - 1].kind.property.subProperties;
    ChildrenInMiddle(CategoryRows(cats, members, base), h, block, rest, j, Some(base + j), subs);
  }

  lemma {:induction false} ChildrenInLaterCategories(cats: seq<Option<string>>, members: Option<string> -> seq<Property>,
                                                     base: nat, j: nat)
    requires cats != []
    requires |PropertyRows(members(cats[0]), Some(base), base + 1)| < j < |CategoryRows(cats, members, base)|
    ensures ChildProperties(CategoryRows(cats, members, base), Some(base + j))
      == ExpectedChildren(members, CategoryRows(cats, members, base)[j])
    decreases cats, 0
  {
    var group := members(cats[0]);
    var block := PropertyRows(group, Some(base), base + 1);
    var base' := base + 1 + |block|;
    var rest := CategoryRows(cats[1..], members, base');
    var h := CategoryItem(cats[0], None);
    var j' := j - 1 - |block|;
    CategoryRowsUnfold(cats, members, base);
    PropertyRowsNotBelow(group, Some(base), base + 1, Some(base + j));
    CategoryRowsChildren(cats[1..], members, base', j');
    assert base + j == base' + j';
    var expected := ExpectedChildren(members, rest[j']);
    ChildrenInRest(CategoryRows(cats, members, base), h, block, rest, j, Some(base + j), expected);
  }

  /** The category loop from an empty model: one header per category in the
      given order, no property row without a parent, and below each row
      what it stands for. */
  lemma CategoryRowsShape(cats: seq<Option<string>>, members: Option<string> -> seq<Property>, model: seq<Item>)
    requires model == CategoryRows(cats, members, 0)
    ensures HeaderNames(model) == cats
    ensures ChildProperties(model, None) == []
    ensures forall j :: 0 <= j < |model| ==> ChildProperties(model, Some(j)) == ExpectedChildren(members, model[j])
  {
    CategoryRowsHeaders(cats, members, 0);
    CategoryRowsNotBelow(cats, members, 0, None);
    forall j | 0 <= j < |model|
      ensures ChildProperties(model, Some(j)) == ExpectedChildren(members, model[j])
    {
      CategoryRowsChildren(cats, members, 0, j);
    }
  }
}
