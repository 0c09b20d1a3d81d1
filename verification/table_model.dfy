/**
 The state of a `PropertySheetTableModel` and its public operations: the
 property list, the view settings, the model rows and the published rows.
 Every operation that calls `buildModel` rebuilds the rows from scratch.
 */
module TableModel {
  import opened Options
  import opened Properties
  import opened Items
  import opened Grouping
  import opened Ordering
  import opened Build
  import opened Visibility

  /** `NAME_COLUMN` and `VALUE_COLUMN`. */
  const NameColumn: int := 0
  const ValueColumn: int := 1

  /** The fields of the table model the row logic uses; `published` holds
      the model index of each published row. */
  datatype Sheet = Sheet(
    properties: seq<Property>,
    config: Config,
    model: seq<Item>,
    published: seq<nat>)

  /** The model has the rows `buildModel` made, up to the expanded flags
      that toggling has changed since. */
  ghost predicate SameRows(model: seq<Item>, built: seq<Item>) {
    && |model| == |built|
    && forall i :: 0 <= i < |model| ==> model[i].(visible := built[i].visible) == built[i]
  }

  /** The invariant every operation keeps: the rows are those of the
      properties under the settings, and the published rows are what
      `visibilityChanged` computes from them. */
  ghost predicate Valid(s: Sheet) {
    && SameRows(s.model, BuildModel(s.config, s.properties))
    && WellFormed(s.model)
    && s.published == Publish(s.model)
  }

  /** `buildModel` followed by `visibilityChanged(false)`: fresh rows, of
      which the top-level rows and the rows directly below a header are
      published. */
  function Rebuild(ps: seq<Property>, cfg: Config): (s: Sheet)
    ensures Valid(s) && s.properties == ps && s.config == cfg
    ensures FreshRows(s.model)
    ensures forall i :: 0 <= i < |s.model| ==>
      (i in s.published <==> (s.model[i].parent.None? || !s.model[s.model[i].parent.value].IsProperty()))
  {
    BuildFresh(cfg, ps);
    var model := BuildModel(cfg, ps);
    assert forall i :: 0 <= i < |model| ==>
      (i in Publish(model) <==> (model[i].parent.None? || !model[model[i].parent.value].IsProperty())) by {
      forall i | 0 <= i < |model|
        ensures i in Publish(model) <==> (model[i].parent.None? || !model[model[i].parent.value].IsProperty())
      {
        BuiltPublished(cfg, ps, i);
      }
    }
    Sheet(ps, cfg, model, Publish(model))
  }

  /** The constructor: no properties, flat view, no sorting, no rows. */
  function NewSheet(): (s: Sheet)
    ensures Valid(s)
    ensures s.properties == [] && s.config == DefaultConfig()
    ensures |s.model| == 0 && |s.published| == 0
  {
    Rebuild([], DefaultConfig())
  }

  /** `setProperties`: replaces the property list and rebuilds. */
  function SetProperties(s: Sheet, ps: seq<Property>): (r: Sheet)
    ensures Valid(r) && r.properties == ps && r.config == s.config
    ensures FreshRows(r.model)
  {
    Rebuild(ps, s.config)
  }

  /** `addProperty(property)`: appends and rebuilds. */
  function AddProperty(s: Sheet, p: Property): (r: Sheet)
    ensures Valid(r) && r.config == s.config && FreshRows(r.model)
    ensures |r.properties| == |s.properties| + 1
    ensures r.properties[..|s.properties|] == s.properties && r.properties[|s.properties|] == p
  {
    Rebuild(s.properties + [p], s.config)
  }

  /** `addProperty(index, property)`: inserts before position `index` and
      rebuilds; an index outside `0..size` throws (`None`). */
  function InsertProperty(s: Sheet, index: int, p: Property): (r: Option<Sheet>)
    ensures r.Some? <==> 0 <= index <= |s.properties|
    ensures r.Some? ==> Valid(r.value) && r.value.config == s.config && FreshRows(r.value.model)
    ensures r.Some? ==>
      && |r.value.properties| == |s.properties| + 1
      && r.value.properties[index] == p
      && r.value.properties[..index] == s.properties[..index]
      && r.value.properties[index + 1..] == s.properties[index..]
  {
    if 0 <= index <= |s.properties| then
      var ps := s.properties[..index] + [p] + s.properties[index..];
      assert ps[index + 1..] == s.properties[index..];
      Some(Rebuild(ps, s.config))
    else None
  }

  /** `List.remove(Object)`: drops the first element equal to `p`, if any. */
  function RemoveFirst(ps: seq<Property>, p: Property): (r: seq<Property>)
    ensures p !in ps ==> r == ps
    ensures p in ps ==> r == ps[..FirstIndex(ps, p)] + ps[FirstIndex(ps, p) + 1..]
  {
    if ps == [] then []
    else if ps[0] == p then ps[1..]
    else
      var r := RemoveFirst(ps[1..], p);
      if p in ps then
        var k := FirstIndex(ps[1..], p);
        assert FirstIndex(ps, p) == k + 1;
        assert [ps[0]] + ps[1..][..k] == ps[..k + 1];
        assert ps[1..][k + 1..] == ps[k + 2..];
        [ps[0]] + r
      else
        assert ps == [ps[0]] + ps[1..];
        [ps[0]] + r
  }

  /** `removeProperty`: drops the first equal property and rebuilds, even
      when there was nothing to drop. */
  function RemoveProperty(s: Sheet, p: Property): (r: Sheet)
    ensures Valid(r) && r.config == s.config && FreshRows(r.model)
    ensures r.properties == RemoveFirst(s.properties, p)
  {
    Rebuild(RemoveFirst(s.properties, p), s.config)
  }

  /** `setMode`: nothing happens when the mode is already set; otherwise the
      model is rebuilt in the new mode. */
  function SetMode(s: Sheet, mode: Mode): (r: Sheet)
    requires Valid(s)
    ensures Valid(r) && r.config.mode == mode && r.properties == s.properties
    ensures s.config.mode == mode ==> r == s
    ensures s.config.mode != mode ==> r == Rebuild(s.properties, s.config.(mode := mode))
  {
    if s.config.mode == mode then s else Rebuild(s.properties, s.config.(mode := mode))
  }

  /** `setSortingCategories`: rebuilds only when the flag changes. */
  function SetSortingCategories(s: Sheet, value: bool): (r: Sheet)
    requires Valid(s)
    ensures Valid(r) && r.config == s.config.(sortingCategories := value) && r.properties == s.properties
    ensures s.config.sortingCategories == value ==> r == s
    ensures s.config.sortingCategories != value ==> FreshRows(r.model)
  {
    if s.config.sortingCategories == value then s
    else Rebuild(s.properties, s.config.(sortingCategories := value))
  }

  /** `setSortingProperties`: rebuilds only when the flag changes. */
  function SetSortingProperties(s: Sheet, value: bool): (r: Sheet)
    requires Valid(s)
    ensures Valid(r) && r.config == s.config.(sortingProperties := value) && r.properties == s.properties
    ensures s.config.sortingProperties == value ==> r == s
    ensures s.config.sortingProperties != value ==> FreshRows(r.model)
  {
    if s.config.sortingProperties == value then s
    else Rebuild(s.properties, s.config.(sortingProperties := value))
  }

  /** `getRowCount()`: the number of published rows, never more than the
      rows of the model. */
  function RowCount(s: Sheet): (n: nat)
    requires Valid(s)
    ensures n <= |s.model|
    ensures n == |PublishedItems(s.model)|
  {
    |s.published|
  }

  /** `getPropertySheetElement(row)`: the item of a published row; a row
      outside the published model throws (`None`). */
  function ElementAt(s: Sheet, row: int): (r: Option<Item>)
    requires Valid(s)
    ensures r.Some? <==> 0 <= row < RowCount(s)
    ensures r.Some? ==> r.value == PublishedItems(s.model)[row]
    ensures r.Some? ==> exists i :: 0 <= i < |s.model| && Shown(s.model, i) && s.model[i] == r.value
  {
    if 0 <= row < |s.published| then
      var i := s.published[row];
      assert Shown(s.model, i);
      Some(s.model[i])
    else None
  }

  /** What `getValueAt` hands back: the row's item, the value of a property
      (a call into the property, `Property.getValue()`), or null. */
  datatype Cell = ItemCell(item: Item) | ValueOf(property: Property) | NullCell

  /** `getValueAt(row, column)`: a header row gives its item in every
      column; a property row gives its item in the name column, its value in
      the value column and null in any other column. */
  function ValueAt(s: Sheet, row: int, column: int): (r: Option<Cell>)
    requires Valid(s)
    ensures r.Some? <==> 0 <= row < RowCount(s)
    ensures r.Some? && r.value.ValueOf? ==>
      column == ValueColumn && ElementAt(s, row).value.kind == PropertyRow(r.value.property)
    ensures r.Some? && r.value.ItemCell? ==>
      r.value.item == ElementAt(s, row).value && (column == NameColumn || !r.value.item.IsProperty())
    ensures r.Some? && r.value.NullCell? ==>
      ElementAt(s, row).value.IsProperty() && column != NameColumn && column != ValueColumn
  {
    match ElementAt(s, row)
    case None => None
    case Some(item) =>
      if !item.IsProperty() then Some(ItemCell(item))
      else if column == NameColumn then Some(ItemCell(item))
      else if column == ValueColumn then Some(ValueOf(item.kind.property))
      else Some(NullCell)
  }

  /** What `setValueAt` does: nothing, or a call of `setValue` on one
      property. */
  datatype Write = Ignored | SetValue(property: Property)

  /** `setValueAt(value, row, column)`: writes only on a property row in
      the value column; a row outside the published model throws (`None`). */
  function SetValueAt(s: Sheet, row: int, column: int): (r: Option<Write>)
    requires Valid(s)
    ensures r.Some? <==> 0 <= row < RowCount(s)
    ensures r.Some? && r.value.SetValue? ==>
      column == ValueColumn && ElementAt(s, row).value.kind == PropertyRow(r.value.property)
    ensures r.Some? && (column != ValueColumn || !ElementAt(s, row).value.IsProperty()) ==> r.value == Ignored
  {
    match ElementAt(s, row)
    case None => None
    case Some(item) =>
      if item.IsProperty() && column == ValueColumn then Some(SetValue(item.kind.property)) else Some(Ignored)
  }

  /** A value is written exactly where one is read: `setValueAt` calls
      `setValue` on the property whose `getValue` `getValueAt` calls. */
  lemma WriteWhereRead(s: Sheet, row: int, column: int, p: Property)
    requires Valid(s)
    ensures SetValueAt(s, row, column) == Some(SetValue(p)) <==> ValueAt(s, row, column) == Some(ValueOf(p))
  {
  }

  /** `toggle()` on the item of a published row: an item with a toggle
      flips its expanded flag and the rows are published again; any other
      item is left alone. */
  function ToggleRow(s: Sheet, row: int): (r: Option<Sheet>)
    requires Valid(s)
    ensures r.Some? <==> 0 <= row < RowCount(s)
    ensures r.Some? ==> Valid(r.value)
    ensures r.Some? ==> r.value.properties == s.properties && r.value.config == s.config
    ensures r.Some? ==> r.value.model == Toggle(s.model, s.published[row])
  {
    if 0 <= row < |s.published| then
      var i := s.published[row];
      var model := Toggle(s.model, i);
      ToggleKeepsWellFormed(s.model, i);
      Some(Sheet(s.properties, s.config, model, Publish(model)))
    else None
  }

  /** Toggling leaves the item on the same published row: the rows before
      it are not below it, so they are shown as before. */
  lemma ToggleKeepsRow(s: Sheet, row: nat)
    requires Valid(s) && row < RowCount(s)
    ensures row < RowCount(ToggleRow(s, row).value)
    ensures ToggleRow(s, row).value.published[row] == s.published[row]
  {
    var i := s.published[row];
    var t := Toggle(s.model, i);
    ToggleKeepsWellFormed(s.model, i);
    forall j | 0 <= j <= i
      ensures Shown(s.model, j) == Shown(t, j)
    {
      if s.model[j].parent.Some? {
        var q := s.model[j].parent.value;
        assert forall k :: 0 <= k < |Ancestry(s.model, q)| ==> Ancestry(s.model, q)[k] <= q < i;
        ToggleAffectsOnlyDescendants(s.model, i, q);
      }
    }
    SamePosition(s.model, t, row);
  }

  /** Toggling the same row twice gives back the sheet. */
  lemma ToggleRowTwice(s: Sheet, row: nat)
    requires Valid(s) && row < RowCount(s)
    ensures ToggleRow(ToggleRow(s, row).value, row) == Some(s)
  {
    ToggleKeepsRow(s, row);
    ToggleInvolution(s.model, s.published[row]);
  }

  /** Setting the mode twice is setting it once. */
  lemma SetModeIdempotent(s: Sheet, mode: Mode)
    requires Valid(s)
    ensures SetMode(SetMode(s, mode), mode) == SetMode(s, mode)
  {
  }

  /** Appending is inserting at the end. */
  lemma AddIsInsertAtEnd(s: Sheet, p: Property)
    ensures InsertProperty(s, |s.properties|, p) == Some(AddProperty(s, p))
  {
    assert s.properties[..|s.properties|] + [p] + s.properties[|s.properties|..] == s.properties + [p];
  }

  /** Removing a property just added, that was not there before, gives back
      the property list. */
  lemma RemoveUndoesAdd(s: Sheet, p: Property)
    requires p !in s.properties
    ensures RemoveProperty(AddProperty(s, p), p).properties == s.properties
  {
    var ps := s.properties + [p];
    assert FirstIndex(ps, p) == |s.properties|;
    assert ps[..|s.properties|] == s.properties;
  }
}
