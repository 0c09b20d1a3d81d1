/**
 `buildModel`: the rows of the table model for a list of properties under
 the current settings, and what the rows are promised to show.
 */
module Build {
  import opened Options
  import opened Properties
  import opened Sorting
  import opened Items
  import opened Grouping
  import opened Ordering
  import opened Rows
  import opened CategoryView
  import opened Layout
  import opened Nesting

  /** The member lists of all categories, as `buildModel` looks them up. */
  function MembersOf(cfg: Config, ps: seq<Property>): Option<string> -> seq<Property> {
    c => Members(cfg, ps, c)
  }

  /** The categories that get a header: those of the sorted properties, each
      once, sorted when category sorting is on. */
  function HeaderCategories(cfg: Config, ps: seq<Property>): seq<Option<string>> {
    SortCategories(cfg, PropertyCategories(SortProperties(cfg, ps)))
  }

  /** `buildModel`: nothing for an empty property list; in flat mode the
      sorted properties with their sub-properties; in category mode a header
      per category followed by that category's properties, which are taken
      from the unsorted list and sorted again; nothing in any other mode. */
  function BuildModel(cfg: Config, ps: seq<Property>): seq<Item> {
    if |ps| == 0 then []
    else
      match cfg.mode
      case FlatList => PropertyRows(SortProperties(cfg, ps), None, 0)
      case ByCategory => CategoryRows(HeaderCategories(cfg, ps), MembersOf(cfg, ps), 0)
      case OtherMode => []
  }

  /** Rows as the constructors of `Item` leave them: property rows as
      `new Item(property, parent)`, headers as `new Item(category, null)`,
      and every parent before its child. */
  ghost predicate FreshRows(items: seq<Item>) {
    forall i :: 0 <= i < |items| ==>
      && (items[i].IsProperty() ==> items[i] == PropertyItem(items[i].kind.property, items[i].parent))
      && (!items[i].IsProperty() ==> items[i] == CategoryItem(items[i].name, None))
      && (items[i].parent.Some? ==> items[i].parent.value < i)
  }

  /** Every built row is fresh, and every parent precedes its child, so the
      walks up the parent chain (`isVisible`, `getDepth`, `getKey`) end. */
  lemma BuildFresh(cfg: Config, ps: seq<Property>)
    ensures FreshRows(BuildModel(cfg, ps))
    ensures WellFormed(BuildModel(cfg, ps))
  {
    var model := BuildModel(cfg, ps);
    if |ps| > 0 {
      if cfg.mode.FlatList? {
        PropertyRowsBlock(SortProperties(cfg, ps), None, 0);
      } else if cfg.mode.ByCategory? {
        CategoryRowsBlock(HeaderCategories(cfg, ps), MembersOf(cfg, ps), 0);
      }
    }
  }

  /** The rows `addPropertiesToModel` makes for a list from an empty model,
      with no parent: the rows without a parent show the list, all rows
      together show it in pre-order, and there is no header. */
  lemma FlatShape(sorted: seq<Property>, model: seq<Item>)
    requires model == PropertyRows(sorted, None, 0)
    ensures ChildProperties(model, None) == sorted
    ensures ShownProperties(model) == Preorder(sorted)
    ensures HeaderNames(model) == []
  {
    PropertyRowsTopLevel(sorted, None, 0);
    PropertyRowsPreorder(sorted, None, 0);
    PropertyRowsBlock(sorted, None, 0);
    HeaderNamesEmpty(model);
  }

  /** The same rows: each is a property row, and the rows below it show its
      sub-properties. */
  lemma FlatChildren(sorted: seq<Property>, model: seq<Item>)
    requires model == PropertyRows(sorted, None, 0)
    ensures forall j :: 0 <= j < |model| ==>
      model[j].IsProperty() && ChildProperties(model, Some(j)) == model[j].kind.property.subProperties
  {
    forall j | 0 <= j < |model|
      ensures model[j].IsProperty()
      ensures ChildProperties(model, Some(j)) == model[j].kind.property.subProperties
    {
      FlatChild(sorted, model, j);
    }
  }

  lemma FlatChild(sorted: seq<Property>, model: seq<Item>, j: nat)
    requires model == PropertyRows(sorted, None, 0) && j < |model|
    ensures model[j].IsProperty() && ChildProperties(model, Some(j)) == model[j].kind.property.subProperties
  {
    PropertyRowsChildren(sorted, None, 0, j);
  }

  /** Flat mode: the rows without a parent show the sorted properties (the
      input order when sorting is off), all rows together show them in
      depth-first pre-order, there is no header, and the rows below each
      property row show its sub-properties. */
  lemma FlatModel(cfg: Config, ps: seq<Property>)
    requires cfg.mode.FlatList?
    ensures ChildProperties(BuildModel(cfg, ps), None) == SortProperties(cfg, ps)
    ensures ShownProperties(BuildModel(cfg, ps)) == Preorder(SortProperties(cfg, ps))
    ensures HeaderNames(BuildModel(cfg, ps)) == []
    ensures forall j :: 0 <= j < |BuildModel(cfg, ps)| ==>
      && BuildModel(cfg, ps)[j].IsProperty()
      && ChildProperties(BuildModel(cfg, ps), Some(j)) == BuildModel(cfg, ps)[j].kind.property.subProperties
  {
    var sorted := SortProperties(cfg, ps);
    if |ps| == 0 {
      assert |sorted| == 0;
    }
    assert BuildModel(cfg, ps) == PropertyRows(sorted, None, 0);
    FlatShape(sorted, BuildModel(cfg, ps));
    FlatChildren(sorted, BuildModel(cfg, ps));
  }

  /** No properties, no categories. */
  lemma NoHeaderCategories(cfg: Config, ps: seq<Property>)
    requires |ps| == 0
    ensures HeaderCategories(cfg, ps) == []
  {
    var sorted := SortProperties(cfg, ps);
    assert |sorted| == 0;
    assert PropertyCategories(sorted) == [];
  }

  /** The member function hands out the members of each category. */
  lemma MembersOfApply(cfg: Config, ps: seq<Property>, it: Item)
    ensures ExpectedChildren(MembersOf(cfg, ps), it)
      == if it.IsProperty() then it.kind.property.subProperties else Members(cfg, ps, it.name)
  {
  }

  /** Category mode: one header per category of the properties, in first
      occurrence order or sorted, no property row without a parent, the rows
      below each header show the properties of that category, and the rows
      below each property row show its sub-properties. */
  lemma CategoryModel(cfg: Config, ps: seq<Property>)
    requires cfg.mode.ByCategory?
    ensures HeaderNames(BuildModel(cfg, ps)) == HeaderCategories(cfg, ps)
    ensures ChildProperties(BuildModel(cfg, ps), None) == []
    ensures forall j :: 0 <= j < |BuildModel(cfg, ps)| ==>
      ChildProperties(BuildModel(cfg, ps), Some(j))
        == if BuildModel(cfg, ps)[j].IsProperty() then BuildModel(cfg, ps)[j].kind.property.subProperties
           else Members(cfg, ps, BuildModel(cfg, ps)[j].name)
  {
    var model := BuildModel(cfg, ps);
    var cats := HeaderCategories(cfg, ps);
    if |ps| == 0 {
      NoHeaderCategories(cfg, ps);
    } else {
      CategoryRowsShape(cats, MembersOf(cfg, ps), model);
      forall j | 0 <= j < |model|
        ensures ChildProperties(model, Some(j))
          == if model[j].IsProperty() then model[j].kind.property.subProperties
             else Members(cfg, ps, model[j].name)
      {
        MembersOfApply(cfg, ps, model[j]);
      }
    }
  }

  /** Category mode: the rows show, category after category in header
      order, the header and then that category's members with their
      sub-properties in depth-first pre-order. */
  lemma CategoryModelLayout(cfg: Config, ps: seq<Property>)
    requires cfg.mode.ByCategory?
    ensures Labels(BuildModel(cfg, ps)) == CategoryLayout(HeaderCategories(cfg, ps), MembersOf(cfg, ps))
  {
    if |ps| == 0 {
      NoHeaderCategories(cfg, ps);
    } else {
      CategoryRowsLayout(HeaderCategories(cfg, ps), MembersOf(cfg, ps), 0);
    }
  }

  /** Every built model is nested. */
  lemma BuildNested(cfg: Config, ps: seq<Property>)
    ensures Nested(BuildModel(cfg, ps), 0)
  {
    if |ps| > 0 {
      if cfg.mode.FlatList? {
        PropertyRowsNested(SortProperties(cfg, ps), None, 0);
      } else if cfg.mode.ByCategory? {
        CategoryRowsNested(HeaderCategories(cfg, ps), MembersOf(cfg, ps), 0);
      }
    }
  }

  /** In every mode the rows of a subtree stay together: each row between a
      row `k` and a child `j` of `k` descends from `k`. */
  lemma SubtreeContiguous(cfg: Config, ps: seq<Property>, k: nat, m: nat, j: nat)
    requires k < m < j < |BuildModel(cfg, ps)| && BuildModel(cfg, ps)[j].parent == Some(k)
    ensures WellFormed(BuildModel(cfg, ps)) && k in Ancestry(BuildModel(cfg, ps), m)
  {
    BuildFresh(cfg, ps);
    BuildNested(cfg, ps);
    NestedAncestry(BuildModel(cfg, ps), k, m, j);
  }

  /** Reordering neither the properties nor their distinct categories
      changes which categories there are, or that each comes once. */
  lemma CategoriesUnderPermutation(ps: seq<Property>, sorted: seq<Property>,
                                   cats: seq<Option<string>>, sortedCats: seq<Option<string>>)
    requires multiset(sorted) == multiset(ps)
    requires NoDuplicates(cats) && forall c :: c in cats <==> exists p :: p in sorted && p.category == c
    requires multiset(sortedCats) == multiset(cats)
    ensures NoDuplicates(sortedCats)
    ensures forall c :: c in sortedCats <==> exists p :: p in ps && p.category == c
  {
    NoDuplicatesPermutation(cats, sortedCats);
    forall c
      ensures c in sortedCats <==> exists p :: p in ps && p.category == c
    {
      assert c in sortedCats <==> c in multiset(sortedCats);
      assert c in cats <==> c in multiset(cats);
      if exists p :: p in ps && p.category == c {
        var p :| p in ps && p.category == c;
        assert p in multiset(sorted);
        assert c in cats;
      }
      if c in sortedCats {
        assert c in cats;
        var p :| p in sorted && p.category == c;
        assert p in multiset(ps);
        assert p in ps;
      }
    }
  }

  /** Category mode gives every category of the properties exactly one
      header, and no other header; a null category counts. */
  lemma HeadersOncePerCategory(cfg: Config, ps: seq<Property>)
    requires cfg.mode.ByCategory?
    ensures NoDuplicates(HeaderNames(BuildModel(cfg, ps)))
    ensures forall c :: c in HeaderNames(BuildModel(cfg, ps)) <==> exists p :: p in ps && p.category == c
  {
    var sorted := SortProperties(cfg, ps);
    var cats := PropertyCategories(sorted);
    CategoryModel(cfg, ps);
    CategoriesUnderPermutation(ps, sorted, cats, SortCategories(cfg, cats));
  }

  /** Category mode: a header's rows show exactly the properties whose
      category is that header's, which must not be null, so a property with a
      null category gets no row at all under any header. */
  lemma HeaderShowsItsCategory(cfg: Config, ps: seq<Property>, j: nat, p: Property)
    requires cfg.mode.ByCategory?
    requires j < |BuildModel(cfg, ps)| && !BuildModel(cfg, ps)[j].IsProperty()
    ensures p in ChildProperties(BuildModel(cfg, ps), Some(j))
      <==> p in ps && p.category.Some? && p.category == BuildModel(cfg, ps)[j].name
  {
    CategoryModel(cfg, ps);
  }

  /** The categories and members of a single property without a category,
      neither sorting on. */
  lemma NullCategoryParts(cfg: Config, ps: seq<Property>)
    requires cfg.mode.ByCategory? && !cfg.sortingProperties && !cfg.sortingCategories
    requires |ps| == 1 && ps[0].category.None?
    ensures HeaderCategories(cfg, ps) == [None]
    ensures MembersOf(cfg, ps)(None) == []
  {
    assert Categories(ps) == [None];
    var nulls: seq<Option<string>> := [None];
    assert Distinct(nulls) == nulls by {
      assert nulls[..0] == [];
    }
    assert Members(cfg, ps, None) == [];
  }

  /** The model of a single property without a category, in category mode
      with neither sorting on: a lone header named null. */
  lemma NullCategoryModel(cfg: Config, ps: seq<Property>)
    requires cfg.mode.ByCategory? && !cfg.sortingProperties && !cfg.sortingCategories
    requires |ps| == 1 && ps[0].category.None?
    ensures BuildModel(cfg, ps) == [CategoryItem(None, None)]
  {
    NullCategoryParts(cfg, ps);
    var members := MembersOf(cfg, ps);
    var cats: seq<Option<string>> := [None];
    assert BuildModel(cfg, ps) == CategoryRows(cats, members, 0);
    assert PropertyRows(members(None), Some(0), 1) == [];
    assert CategoryRows(cats[1..], members, 1) == [];
  }

  /** A lone header named null: `getKey()` as written fails on it, the
      corrected key is "null". */
  lemma LoneNullHeaderKey(model: seq<Item>)
    requires model == [CategoryItem(None, None)]
    ensures WellFormed(model)
    ensures KeyAsWritten(model, 0).None? && Key(model, 0) == "null"
  {
    assert AncestorSuffix(model, None) == "";
  }

  /** In category mode a property without a category makes a header whose
      name is null; `getKey()` as written throws on that header, while the
      corrected key is "null". */
  lemma NullCategoryHeaderKey()
    ensures var cfg := DefaultConfig().(mode := ByCategory);
      var model := BuildModel(cfg, [Property(Some("a"), None, [])]);
      && |model| == 1 && WellFormed(model)
      && model[0] == CategoryItem(None, None)
      && KeyAsWritten(model, 0).None? && Key(model, 0) == "null"
  {
    var cfg := DefaultConfig().(mode := ByCategory);
    var ps := [Property(Some("a"), None, [])];
    assert !cfg.sortingProperties && !cfg.sortingCategories;
    NullCategoryModel(cfg, ps);
    LoneNullHeaderKey(BuildModel(cfg, ps));
  }
}
