/**
 The rows of the table model (`PropertySheetTableModel.Item`). A model is a
 sequence of items; an item's parent is the index of another item of the
 same sequence, standing for the Java parent reference.
 */
module Items {
  import opened Options
  import opened Properties

  /** A row shows either a category header or a property. */
  datatype ItemKind = CategoryHeader | PropertyRow(property: Property)

  /** `name` is the category name or the property's display name (either
      may be null); `visible` is the expanded flag that `toggle` flips. */
  datatype Item = Item(
    name: Option<string>,
    kind: ItemKind,
    parent: Option<nat>,
    hasToggle: bool,
    visible: bool)
  {
    predicate IsProperty() {
      kind.PropertyRow?
    }

    /** The item does not hide its children on its own account. */
    predicate Open() {
      !hasToggle || visible
    }
  }

  /** `new Item(category, parent)`: a category always has a toggle and
      starts expanded. */
  function CategoryItem(category: Option<string>, parent: Option<nat>): (it: Item)
    ensures !it.IsProperty() && it.name == category && it.parent == parent
    ensures it.hasToggle && it.visible
  {
    Item(category, CategoryHeader, parent, true, true)
  }

  /** `new Item(property, parent)`: a property has a toggle exactly when it
      has sub-properties, and starts collapsed. */
  function PropertyItem(p: Property, parent: Option<nat>): (it: Item)
    ensures it.kind == PropertyRow(p) && it.name == p.displayName && it.parent == parent
    ensures it.hasToggle <==> p.HasSubProperties()
    ensures !it.visible
  {
    Item(p.displayName, PropertyRow(p), parent, p.HasSubProperties(), false)
  }

  /** Every parent comes before its children, so that walking up the
      parent chain ends. */
  predicate WellFormed(items: seq<Item>) {
    forall i :: 0 <= i < |items| && items[i].parent.Some? ==> items[i].parent.value < i
  }

  /** `isVisible()`: the parent, if any, is visible, and the item itself is
      not collapsed. */
  function IsVisible(items: seq<Item>, i: nat): bool
    requires WellFormed(items) && i < |items|
    decreases i
  {
    (items[i].parent.None? || IsVisible(items, items[i].parent.value)) && items[i].Open()
  }

  /** The item followed by its ancestors, nearest first. */
  function Ancestry(items: seq<Item>, i: nat): (r: seq<nat>)
    requires WellFormed(items) && i < |items|
    ensures |r| >= 1 && r[0] == i
    ensures forall k :: 0 <= k < |r| ==> r[k] <= i
    ensures forall k :: 0 <= k < |r| - 1 ==> items[r[k]].parent == Some(r[k + 1])
    ensures items[r[|r| - 1]].parent.None?
    decreases i
  {
    [i] + if items[i].parent.None? then [] else Ancestry(items, items[i].parent.value)
  }

  /** An item is visible exactly when it and every one of its ancestors is
      open. */
  lemma {:induction false} VisibleIffAncestryOpen(items: seq<Item>, i: nat)
    requires WellFormed(items) && i < |items|
    ensures IsVisible(items, i) <==>
      forall k :: 0 <= k < |Ancestry(items, i)| ==> items[Ancestry(items, i)[k]].Open()
    decreases i
  {
    var a := Ancestry(items, i);
    if items[i].parent.Some? {
      var p := items[i].parent.value;
      var b := Ancestry(items, p);
      VisibleIffAncestryOpen(items, p);
      assert IsVisible(items, p) <==> forall k :: 0 <= k < |Ancestry(items, p)| ==> items[Ancestry(items, p)[k]].Open();
      assert a == [i] + b;
      if IsVisible(items, i) {
        assert items[i].Open() && IsVisible(items, p);
        forall k | 0 <= k < |a|
          ensures items[a[k]].Open()
        {
          if k > 0 {
            assert a[k] == b[k - 1];
          } else {
            assert a[k] == i;
          }
        }
      } else if items[i].Open() {
        var k :| 0 <= k < |b| && !items[b[k]].Open();
        assert a[k + 1] == b[k];
      }
    }
  }

  /** `getDepth()`: the number of ancestors that are properties; categories
      do not indent. */
  function Depth(items: seq<Item>, i: nat): nat
    requires WellFormed(items) && i < |items|
    decreases i
  {
    if items[i].parent.None? then 0
    else
      var p := items[i].parent.value;
      Depth(items, p) + if items[p].IsProperty() then 1 else 0
  }

  /** How many of the listed items are properties. */
  function CountProperties(items: seq<Item>, idx: seq<nat>): nat
    requires forall k :: 0 <= k < |idx| ==> idx[k] < |items|
  {
    if idx == [] then 0
    else (if items[idx[0]].IsProperty() then 1 else 0) + CountProperties(items, idx[1..])
  }

  /** The depth counts the property ancestors and nothing else. */
  lemma {:induction false} DepthCountsPropertyAncestors(items: seq<Item>, i: nat)
    requires WellFormed(items) && i < |items|
    ensures Depth(items, i) == CountProperties(items, Ancestry(items, i)[1..])
    decreases i
  {
    if items[i].parent.Some? {
      var p := items[i].parent.value;
      DepthCountsPropertyAncestors(items, p);
      assert Ancestry(items, i)[1..] == Ancestry(items, p);
    }
  }

  /** What `StringBuilder.append` writes for a name: the text, or "null". */
  function NameText(name: Option<string>): string {
    if name.None? then "null" else name.value
  }

  /** The ":"-separated names of the items from `p` up to the root, each
      preceded by ":", as the loop of `getKey()` appends them. */
  function AncestorSuffix(items: seq<Item>, p: Option<nat>): string
    requires WellFormed(items) && (p.Some? ==> p.value < |items|)
    decreases if p.None? then 0 else p.value + 1
  {
    if p.None? then ""
    else ":" + NameText(items[p.value].name) + AncestorSuffix(items, items[p.value].parent)
  }

  /** ":" and the name of each listed item, concatenated in order. */
  function JoinNames(items: seq<Item>, idx: seq<nat>): string
    requires forall k :: 0 <= k < |idx| ==> idx[k] < |items|
  {
    if idx == [] then ""
    else ":" + NameText(items[idx[0]].name) + JoinNames(items, idx[1..])
  }

  /** `getKey()` as written: `new StringBuilder(name)` throws a
      NullPointerException (`None`) when the item's own name is null, while
      a null ancestor name is appended as "null". */
  function KeyAsWritten(items: seq<Item>, i: nat): Option<string>
    requires WellFormed(items) && i < |items|
  {
    if items[i].name.None? then None
    else Some(items[i].name.value + AncestorSuffix(items, items[i].parent))
  }

  /** `getKey()` with the item's own null name written as "null", the way
      the same method writes null ancestor names. */
  function Key(items: seq<Item>, i: nat): string
    requires WellFormed(items) && i < |items|
  {
    NameText(items[i].name) + AncestorSuffix(items, items[i].parent)
  }

  /** The loop of `getKey()` appends ":" and the name of each item of the
      ancestry of `p`, nearest first. */
  lemma {:induction false} SuffixJoinsAncestry(items: seq<Item>, p: nat)
    requires WellFormed(items) && p < |items|
    ensures AncestorSuffix(items, Some(p)) == JoinNames(items, Ancestry(items, p))
    decreases p
  {
    var a := Ancestry(items, p);
    if items[p].parent.Some? {
      var q := items[p].parent.value;
      SuffixJoinsAncestry(items, q);
      assert a[1..] == Ancestry(items, q);
    } else {
      assert a[1..] == [];
    }
  }

  /** The key is the item's name followed by ":" and the name of each
      ancestor, from the nearest one up to the root. */
  lemma KeyJoinsAncestry(items: seq<Item>, i: nat)
    requires WellFormed(items) && i < |items|
    ensures Key(items, i) == NameText(items[i].name) + JoinNames(items, Ancestry(items, i)[1..])
  {
    if items[i].parent.Some? {
      var p := items[i].parent.value;
      SuffixJoinsAncestry(items, p);
      assert Ancestry(items, i)[1..] == Ancestry(items, p);
    }
  }

  /** A child's key is its name, ":", and its parent's key. */
  lemma KeyOfChild(items: seq<Item>, i: nat)
    requires WellFormed(items) && i < |items| && items[i].parent.Some?
    ensures Key(items, i) == NameText(items[i].name) + ":" + Key(items, items[i].parent.value)
  {
    var p := items[i].parent.value;
    assert AncestorSuffix(items, items[i].parent)
        == ":" + NameText(items[p].name) + AncestorSuffix(items, items[p].parent);
  }

  /** The source's key fails exactly for items whose own name is null, and
      agrees with `Key` everywhere else. */
  lemma KeyAsWrittenFailsOnlyOnNullName(items: seq<Item>, i: nat)
    requires WellFormed(items) && i < |items|
    ensures KeyAsWritten(items, i).None? <==> items[i].name.None?
    ensures KeyAsWritten(items, i).Some? ==> KeyAsWritten(items, i).value == Key(items, i)
  {
  }

  /** `toggle()`: flips the expanded flag of an item that has a toggle and
      leaves everything else alone. */
  function Toggle(items: seq<Item>, i: nat): (r: seq<Item>)
    requires i < |items|
    ensures |r| == |items|
    ensures forall k :: 0 <= k < |items| && k != i ==> r[k] == items[k]
    ensures items[i].hasToggle ==> r[i] == items[i].(visible := !items[i].visible)
    ensures !items[i].hasToggle ==> r == items
  {
    if items[i].hasToggle then items[i := items[i].(visible := !items[i].visible)] else items
  }

  /** Toggling twice restores the model. */
  lemma ToggleInvolution(items: seq<Item>, i: nat)
    requires i < |items|
    ensures Toggle(Toggle(items, i), i) == items
  {
  }

  /** Toggling keeps the tree shape. */
  lemma ToggleKeepsWellFormed(items: seq<Item>, i: nat)
    requires WellFormed(items) && i < |items|
    ensures WellFormed(Toggle(items, i))
  {
  }

  /** Toggling an item changes the visibility of that item and of its
      descendants only. */
  lemma {:induction false} ToggleAffectsOnlyDescendants(items: seq<Item>, i: nat, k: nat)
    requires WellFormed(items) && i < |items| && k < |items|
    requires i !in Ancestry(items, k)
    ensures WellFormed(Toggle(items, i))
    ensures IsVisible(Toggle(items, i), k) == IsVisible(items, k)
    decreases k
  {
    var t := Toggle(items, i);
    assert t[k] == items[k];
    if items[k].parent.Some? {
      var p := items[k].parent.value;
      assert Ancestry(items, k) == [k] + Ancestry(items, p);
      ToggleAffectsOnlyDescendants(items, i, p);
    }
  }

  /** Below a visible parent, toggling an item with a toggle flips its
      visibility. */
  lemma ToggleFlipsVisibility(items: seq<Item>, i: nat)
    requires WellFormed(items) && i < |items| && items[i].hasToggle
    requires items[i].parent.None? || IsVisible(items, items[i].parent.value)
    ensures WellFormed(Toggle(items, i))
    ensures IsVisible(Toggle(items, i), i) == !IsVisible(items, i)
  {
    if items[i].parent.Some? {
      var p := items[i].parent.value;
      assert i !in Ancestry(items, p);
      ToggleAffectsOnlyDescendants(items, i, p);
    }
  }
}
