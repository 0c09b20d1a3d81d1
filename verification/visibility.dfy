/**
 `visibilityChanged`: the published model is the part of the model the
 table shows, the rows whose parent is missing or visible, in model order.
 Published rows are recorded by their index in the model.
 */
module Visibility {
  import opened Options
  import opened Properties
  import opened Items
  import opened Ordering
  import opened Rows
  import opened Build

  /** `visibilityChanged` publishes row `i`: it has no parent or its parent
      is visible. */
  predicate Shown(items: seq<Item>, i: nat)
    requires WellFormed(items) && i < |items|
  {
    items[i].parent.None? || IsVisible(items, items[i].parent.value)
  }

  /** The loop of `visibilityChanged` over the first `n` rows of the model:
      the indices of the rows it publishes, ascending. */
  function PublishPrefix(items: seq<Item>, n: nat): (r: seq<nat>)
    requires WellFormed(items) && n <= |items|
    ensures |r| <= n
    ensures forall k :: 0 <= k < |r| ==> r[k] < n
    ensures forall k, l :: 0 <= k < l < |r| ==> r[k] < r[l]
    ensures forall i :: 0 <= i < n ==> (i in r <==> Shown(items, i))
  {
    if n == 0 then []
    else
      var r := PublishPrefix(items, n - 1);
      if Shown(items, n - 1) then r + [n - 1] else r
  }

  /** The published model: the shown rows, each once, in model order, so
      that `getRowCount()` never exceeds the size of the model. */
  function Publish(items: seq<Item>): (r: seq<nat>)
    requires WellFormed(items)
    ensures |r| <= |items|
    ensures forall k :: 0 <= k < |r| ==> r[k] < |items|
    ensures forall k, l :: 0 <= k < l < |r| ==> r[k] < r[l]
    ensures forall i :: 0 <= i < |items| ==> (i in r <==> Shown(items, i))
  {
    PublishPrefix(items, |items|)
  }

  /** The rows of the published model themselves. */
  function PublishedItems(items: seq<Item>): (r: seq<Item>)
    requires WellFormed(items)
    ensures |r| == |Publish(items)|
    ensures forall k :: 0 <= k < |r| ==> r[k] == items[Publish(items)[k]]
  {
    var p := Publish(items);
    seq(|p|, k requires 0 <= k < |p| => items[p[k]])
  }

  /** A freshly built model shows the rows without a parent and the rows
      directly below a category header: headers start expanded, and a
      property with rows below it has sub-properties, so a toggle, and starts
      collapsed. */
  lemma BuiltShown(cfg: Config, ps: seq<Property>, i: nat)
    requires i < |BuildModel(cfg, ps)|
    ensures WellFormed(BuildModel(cfg, ps))
    ensures Shown(BuildModel(cfg, ps), i)
      <==> (BuildModel(cfg, ps)[i].parent.None?
            || !BuildModel(cfg, ps)[BuildModel(cfg, ps)[i].parent.value].IsProperty())
  {
    var model := BuildModel(cfg, ps);
    BuildFresh(cfg, ps);
    if model[i].parent.Some? {
      var q := model[i].parent.value;
      if model[q].IsProperty() {
        assert model[i].IsProperty();
        ChildPropertiesContains(model, i);
        if cfg.mode.FlatList? {
          FlatModel(cfg, ps);
        } else {
          CategoryModel(cfg, ps);
        }
        assert model[q].kind.property.HasSubProperties();
        assert !model[q].Open();
      } else {
        assert model[q] == CategoryItem(model[q].name, None);
      }
    }
  }

  /** Right after building, the published rows are exactly the rows without
      a parent and the rows directly below a category header. */
  lemma BuiltPublished(cfg: Config, ps: seq<Property>, i: nat)
    requires i < |BuildModel(cfg, ps)|
    ensures WellFormed(BuildModel(cfg, ps))
    ensures i in Publish(BuildModel(cfg, ps))
      <==> (BuildModel(cfg, ps)[i].parent.None?
            || !BuildModel(cfg, ps)[BuildModel(cfg, ps)[i].parent.value].IsProperty())
  {
    BuiltShown(cfg, ps, i);
  }

  /** Two models that agree on which of their first `n` rows are shown
      publish the same first rows. */
  lemma {:induction false} PublishPrefixAgree(a: seq<Item>, b: seq<Item>, n: nat)
    requires WellFormed(a) && WellFormed(b) && n <= |a| && n <= |b|
    requires forall j :: 0 <= j < n ==> Shown(a, j) == Shown(b, j)
    ensures PublishPrefix(a, n) == PublishPrefix(b, n)
  {
    if n > 0 {
      PublishPrefixAgree(a, b, n - 1);
    }
  }

  /** Publishing more rows only appends, and what it appends comes from
      the later rows. */
  lemma {:induction false} PublishPrefixExtends(items: seq<Item>, n: nat, m: nat)
    requires WellFormed(items) && n <= m <= |items|
    ensures |PublishPrefix(items, n)| <= |PublishPrefix(items, m)|
    ensures PublishPrefix(items, m)[..|PublishPrefix(items, n)|] == PublishPrefix(items, n)
    ensures forall k :: |PublishPrefix(items, n)| <= k < |PublishPrefix(items, m)| ==> PublishPrefix(items, m)[k] >= n
    decreases m - n
  {
    if n < m {
      PublishPrefixExtends(items, n, m - 1);
      var r := PublishPrefix(items, m - 1);
      if Shown(items, m - 1) {
        assert PublishPrefix(items, m) == r + [m - 1];
        assert (r + [m - 1])[..|r|] == r;
      }
    }
  }

  /** The published row showing model row `i` is preceded by exactly the
      shown rows before `i`: its position depends on those rows only. */
  lemma PublishedPosition(items: seq<Item>, row: nat)
    requires WellFormed(items) && row < |Publish(items)|
    ensures PublishPrefix(items, Publish(items)[row] + 1) == Publish(items)[..row + 1]
  {
    var p := Publish(items);
    var i := p[row];
    var q := PublishPrefix(items, i + 1);
    PublishPrefixExtends(items, i + 1, |items|);
    assert row < |q|;
  }

  /** If the first rows of two models up to model row `i` are shown alike,
      the published row showing `i` has the same position in both. */
  lemma SamePosition(a: seq<Item>, b: seq<Item>, row: nat)
    requires WellFormed(a) && WellFormed(b) && |a| == |b| && row < |Publish(a)|
    requires forall j :: 0 <= j <= Publish(a)[row] ==> Shown(a, j) == Shown(b, j)
    ensures row < |Publish(b)| && Publish(b)[row] == Publish(a)[row]
  {
    var i := Publish(a)[row];
    PublishedPosition(a, row);
    PublishPrefixAgree(a, b, i + 1);
    PublishPrefixExtends(b, i + 1, |b|);
    var q := PublishPrefix(b, i + 1);
    assert q == Publish(a)[..row + 1];
    assert q[row] == i;
  }
}
