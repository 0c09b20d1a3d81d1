/**
 The view settings of the table model and `sortProperties` /
 `sortCategories`, which sort a copy of their input only when the matching
 flag is on.
 */
module Ordering {
  import opened Options
  import opened Properties
  import opened Sorting
  import opened Stability
  import opened Comparators

  /** `VIEW_AS_FLAT_LIST`, `VIEW_AS_CATEGORIES`, or any other mode number,
      for which the model stays empty. */
  datatype Mode = FlatList | ByCategory | OtherMode

  /** The settings `buildModel` reads: the mode, the two sorting flags and
      the two comparators in force. */
  datatype Config = Config(
    mode: Mode,
    sortingCategories: bool,
    sortingProperties: bool,
    propertyOrder: (Property, Property) -> int,
    categoryOrder: (Option<string>, Option<string>) -> int)

  /** A new model: flat list, no sorting, and the default comparators
      `PropertyComparator` and `NaturalOrderStringComparator`. */
  function DefaultConfig(): (cfg: Config)
    ensures ValidComparator(cfg.propertyOrder) && ValidComparator(cfg.categoryOrder)
    ensures cfg.mode == FlatList && !cfg.sortingCategories && !cfg.sortingProperties
  {
    DefaultPropertyOrderValid();
    NaturalOrderValid();
    Config(FlatList, false, false, DefaultPropertyOrder, NaturalOrderCompare)
  }

  /** `sortProperties`: a permutation of the input; the input itself when
      property sorting is off. */
  function SortProperties(cfg: Config, ps: seq<Property>): (r: seq<Property>)
    ensures multiset(r) == multiset(ps)
    ensures !cfg.sortingProperties ==> r == ps
  {
    if cfg.sortingProperties then SortBy(ps, cfg.propertyOrder) else ps
  }

  /** `sortCategories`: a permutation of the input; the input itself when
      category sorting is off. */
  function SortCategories(cfg: Config, cs: seq<Option<string>>): (r: seq<Option<string>>)
    ensures multiset(r) == multiset(cs)
    ensures !cfg.sortingCategories ==> r == cs
  {
    if cfg.sortingCategories then SortBy(cs, cfg.categoryOrder) else cs
  }

  /** With property sorting on, the properties come out ordered by the
      property comparator. */
  lemma SortPropertiesOrdered(cfg: Config, ps: seq<Property>)
    requires cfg.sortingProperties && ValidComparator(cfg.propertyOrder)
    ensures SortedBy(SortProperties(cfg, ps), cfg.propertyOrder)
  {
    SortBySorted(ps, cfg.propertyOrder);
  }

  /** With category sorting on, the categories come out ordered by the
      category comparator. */
  lemma SortCategoriesOrdered(cfg: Config, cs: seq<Option<string>>)
    requires cfg.sortingCategories && ValidComparator(cfg.categoryOrder)
    ensures SortedBy(SortCategories(cfg, cs), cfg.categoryOrder)
  {
    SortBySorted(cs, cfg.categoryOrder);
  }

  /** With property sorting on, properties that compare equal (under the
      default order: display names equal up to case, or both null) keep
      their order in the list. */
  lemma SortPropertiesStable(cfg: Config, ps: seq<Property>, x: Property)
    requires ValidComparator(cfg.propertyOrder)
    ensures Ties(SortProperties(cfg, ps), x, cfg.propertyOrder) == Ties(ps, x, cfg.propertyOrder)
  {
    if cfg.sortingProperties {
      SortByStable(ps, x, cfg.propertyOrder);
    }
  }

  /** With category sorting on, categories that compare equal keep their
      order. */
  lemma SortCategoriesStable(cfg: Config, cs: seq<Option<string>>, x: Option<string>)
    requires ValidComparator(cfg.categoryOrder)
    ensures Ties(SortCategories(cfg, cs), x, cfg.categoryOrder) == Ties(cs, x, cfg.categoryOrder)
  {
    if cfg.sortingCategories {
      SortByStable(cs, x, cfg.categoryOrder);
    }
  }

  /** Under the default category comparator a null category heads the
      sorted list. */
  lemma NullCategorySortsFirst(cfg: Config, cs: seq<Option<string>>)
    requires cfg.sortingCategories && cfg.categoryOrder == NaturalOrderCompare
    requires None in cs
    ensures |SortCategories(cfg, cs)| > 0 && SortCategories(cfg, cs)[0] == None
  {
    var r := SortCategories(cfg, cs);
    NaturalOrderValid();
    SortBySorted(cs, cfg.categoryOrder);
    assert None in multiset(r);
    var k :| 0 <= k < |r| && r[k] == None;
    if k > 0 {
      assert NaturalOrderCompare(r[0], r[k]) <= 0;
    }
  }
}
