/**
 What the rows show, in order, when parents and flags are set aside: the
 category loop shows each category's header followed by that category's
 members in depth-first pre-order, category after category.
 */
module Layout {
  import opened Options
  import opened Properties
  import opened Items
  import opened Rows
  import opened CategoryView

  /** What a row shows: a header with its category name, or a property. */
  datatype Label = Header(name: Option<string>) | Prop(property: Property)

  function LabelOf(it: Item): Label {
    if it.IsProperty() then Prop(it.kind.property) else Header(it.name)
  }

  /** The labels of the rows, in row order. */
  function Labels(rows: seq<Item>): seq<Label> {
    if rows == [] then [] else [LabelOf(rows[0])] + Labels(rows[1..])
  }

  /** A property label for each property, in order. */
  function PropLabels(ps: seq<Property>): seq<Label> {
    if ps == [] then [] else [Prop(ps[0])] + PropLabels(ps[1..])
  }

  /** What the category loop is meant to show: for each category in turn,
      its header, then its members with their sub-properties in depth-first
      pre-order. */
  function CategoryLayout(cats: seq<Option<string>>, members: Option<string> -> seq<Property>): seq<Label>
    decreases cats
  {
    if cats == [] then []
    else [Header(cats[0])] + PropLabels(Preorder(members(cats[0]))) + CategoryLayout(cats[1..], members)
  }

  lemma {:induction false} LabelsAppend(a: seq<Item>, b: seq<Item>)
    ensures Labels(a + b) == Labels(a) + Labels(b)
  {
    if a == [] {
      assert a + b == b;
    } else {
      assert (a + b)[0] == a[0] && (a + b)[1..] == a[1..] + b;
      LabelsAppend(a[1..], b);
      assert [LabelOf(a[0])] + (Labels(a[1..]) + Labels(b)) == ([LabelOf(a[0])] + Labels(a[1..])) + Labels(b);
    }
  }

  /** Rows that are all property rows are labelled by the properties they
      show. */
  lemma {:induction false} PropertyLabels(rows: seq<Item>)
    requires forall i :: 0 <= i < |rows| ==> rows[i].IsProperty()
    ensures Labels(rows) == PropLabels(ShownProperties(rows))
  {
    if rows != [] {
      PropertyLabels(rows[1..]);
      assert ShownProperties(rows) == [rows[0].kind.property] + ShownProperties(rows[1..]);
    }
  }

  /** The rows of `addPropertiesToModel` are labelled by the properties in
      depth-first pre-order. */
  lemma PropertyRowsLabels(ps: seq<Property>, parent: Option<nat>, base: nat)
    ensures Labels(PropertyRows(ps, parent, base)) == PropLabels(Preorder(ps))
  {
    PropertyRowsBlock(ps, parent, base);
    PropertyLabels(PropertyRows(ps, parent, base));
    PropertyRowsPreorder(ps, parent, base);
  }

  /** One step of the layout argument, on an abstract block. */
  lemma {:induction false} LayoutStep(rows: seq<Item>, h: Item, block: seq<Item>, rest: seq<Item>,
                                      c: Option<string>, a: seq<Label>, b: seq<Label>)
    requires rows == [h] + block + rest && !h.IsProperty() && h.name == c
    requires Labels(block) == a && Labels(rest) == b
    ensures Labels(rows) == [Header(c)] + a + b
  {
    LabelsAppend([h] + block, rest);
    LabelsAppend([h], block);
    assert Labels([h]) == [Header(c)] + Labels([]);
  }

  /** The category loop shows, category after category, the header and then
      the category's members in depth-first pre-order. */
  lemma {:induction false} CategoryRowsLayout(cats: seq<Option<string>>, members: Option<string> -> seq<Property>, base: nat)
    ensures Labels(CategoryRows(cats, members, base)) == CategoryLayout(cats, members)
    decreases cats
  {
    if cats != [] {
      var block := PropertyRows(members(cats[0]), Some(base), base + 1);
      var rest := CategoryRows(cats[1..], members, base + 1 + |block|);
      CategoryRowsUnfold(cats, members, base);
      PropertyRowsLabels(members(cats[0]), Some(base), base + 1);
      CategoryRowsLayout(cats[1..], members, base + 1 + |block|);
      LayoutStep(CategoryRows(cats, members, base), CategoryItem(cats[0], None), block, rest,
        cats[0], PropLabels(Preorder(members(cats[0]))), CategoryLayout(cats[1..], members));
    }
  }
}
