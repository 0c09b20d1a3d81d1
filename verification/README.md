# Property sheet table model, in Dafny

This project models the row logic of `PropertySheetTableModel`, the Swing
table model of the l2fprod property sheet. The model takes a list of
properties and lays them out as table rows. Each property has a display
name, a category and sub-properties.

- **Flat view.** Each property gets a row, followed depth-first by rows
  for its sub-properties.
- **Category view.** Each distinct category gets a header row, followed by
  the properties of that category.

Properties and categories are sorted when the matching flag is on. A second
list, the *published* model, holds the rows the table shows. These are the
rows whose parent is missing or visible. Toggling a header, or a property
with sub-properties, expands or collapses the rows below it.

How Java concepts are represented:

- Java `null` is `None`.
- A model is a sequence of `Item` records. A row's parent is the index of
  an earlier row, standing in for the Java object reference.
- The published model is the ascending list of the model indices it shows.
- Comparators are functions `(T, T) -> int`. `Collections.sort` is
  modelled by a stable insertion sort.
- Every public operation is a pure function from one table-model state to
  the next.

Modules, in the order the program builds on them:

| file | module | what it holds |
|---|---|---|
| options.dfy | Options | `Option` |
| seqs.dfy | Seqs | associativity of concatenation |
| strings.dfy | Strings | `String.compareTo`, `toLowerCase` |
| sorting.dfy | Sorting | comparator contract, stable sort |
| stability.dfy | Stability | the sort keeps equal elements in input order |
| properties.dfy | Properties | `Property` trees, pre-order |
| comparators.dfy | Comparators | `NaturalOrderStringComparator`, `PropertyComparator` |
| items.dfy | Items | `Item`, `isVisible`, `getDepth`, `getKey`, `toggle` |
| grouping.dfy | Grouping | `getPropertyCategories`, `getPropertiesForCategory` |
| ordering.dfy | Ordering | view settings, `sortProperties`, `sortCategories` |
| rows.dfy | Rows | `addPropertiesToModel` |
| category_view.dfy | CategoryView | the category loop of `buildModel` |
| layout.dfy | Layout | what the rows of the category loop show, in order |
| nesting.dfy | Nesting | the rows of a subtree stay together |
| build.dfy | Build | `buildModel` |
| visibility.dfy | Visibility | `visibilityChanged` |
| table_model.dfy | TableModel | the public operations of the table model |

## Model

All source paths are in `src/main/java/com/l2fprod/common/propertysheet/`, written out in full in the table.

| member | source | states |
|---|---|---|
| Strings.CompareTo | src/main/java/com/l2fprod/common/propertysheet/PropertySheetTableModel.java:648 | `String.compareTo`: the first differing character decides, else the length; characterised by the five lemmas below |
| Strings.CompareToZeroIffEqual | src/main/java/com/l2fprod/common/propertysheet/PropertySheetTableModel.java:648 | `compareTo` returns 0 exactly for equal strings |
| Strings.CompareToAntisymmetric | src/main/java/com/l2fprod/common/propertysheet/PropertySheetTableModel.java:648 | swapping the arguments of `compareTo` negates the result |
| Strings.CompareToTransitive | src/main/java/com/l2fprod/common/propertysheet/PropertySheetTableModel.java:648 | "not after" under `compareTo` is transitive |
| Strings.CompareToCommonPrefix | src/main/java/com/l2fprod/common/propertysheet/PropertySheetTableModel.java:648 | a shared prefix does not change the comparison |
| Strings.CompareToProperPrefix | src/main/java/com/l2fprod/common/propertysheet/PropertySheetTableModel.java:648 | a proper prefix sorts before the longer string |
| Strings.ToLowerCase | src/main/java/com/l2fprod/common/propertysheet/PropertySheetTableModel.java:658-659 | lower-casing (ASCII letters only) keeps the length, leaves no letter A-Z, maps each of A-Z to its lower-case letter and keeps every other character |
| Sorting.Insert | src/main/java/com/l2fprod/common/propertysheet/PropertySheetTableModel.java:483 | inserting adds exactly the one element |
| Sorting.SortBy | src/main/java/com/l2fprod/common/propertysheet/PropertySheetTableModel.java:483 | the sort returns a permutation of its input |
| Sorting.InsertSorted | src/main/java/com/l2fprod/common/propertysheet/PropertySheetTableModel.java:483 | under a valid comparator, inserting into an ordered list keeps it ordered |
| Sorting.SortBySorted | src/main/java/com/l2fprod/common/propertysheet/PropertySheetTableModel.java:483 | under a valid comparator the sort's output is ordered |
| Sorting.InsertAfterAll | src/main/java/com/l2fprod/common/propertysheet/PropertySheetTableModel.java:483 | an element no smaller than any placed one goes last, behind the elements it compares equal to |
| Sorting.SortByKeepsNoInversions | src/main/java/com/l2fprod/common/propertysheet/PropertySheetTableModel.java:483 | a list in which no element is smaller than an earlier one comes back unchanged |
| Stability.InsertTies | src/main/java/com/l2fprod/common/propertysheet/PropertySheetTableModel.java:483 | inserting into an ordered list puts the new element behind every element that compares equal to it |
| Stability.SortByStable | src/main/java/com/l2fprod/common/propertysheet/PropertySheetTableModel.java:483 | the sort is stable: for every x, the elements comparing equal to x come out in their input order |
| Sorting.SortByKeepsSorted | src/main/java/com/l2fprod/common/propertysheet/PropertySheetTableModel.java:483 | under a valid comparator an already ordered list comes back unchanged |
| Comparators.NaturalOrderCompare | src/main/java/com/l2fprod/common/propertysheet/PropertySheetTableModel.java:640-650 | two nulls are equal; null sorts before any string, and any string after null; the result is 0 exactly when both arguments are equal |
| Comparators.NaturalOrderValid | src/main/java/com/l2fprod/common/propertysheet/PropertySheetTableModel.java:637-651 | the null-aware natural order meets the `Comparator` contract (sign flip, transitivity) |
| Comparators.PropertyComparatorCompare | src/main/java/com/l2fprod/common/propertysheet/PropertySheetTableModel.java:654-663 | a pair that is not two properties compares as 0; two properties compare equal exactly when their lower-cased display names are equal |
| Comparators.DefaultPropertyOrderValid | src/main/java/com/l2fprod/common/propertysheet/PropertySheetTableModel.java:632-664 | the default property order meets the `Comparator` contract |
| Items.CategoryItem | src/main/java/com/l2fprod/common/propertysheet/PropertySheetTableModel.java:550-555 | a header is not a property, keeps its name and parent, always has a toggle and starts expanded |
| Items.PropertyItem | src/main/java/com/l2fprod/common/propertysheet/PropertySheetTableModel.java:557-566 | a property row has a toggle exactly when the property has sub-properties, starts collapsed, and is named after the display name |
| Items.IsVisible | src/main/java/com/l2fprod/common/propertysheet/PropertySheetTableModel.java:611-613 | `isVisible()`: visible when the parent, if any, is visible and the item is not collapsed; Items.VisibleIffAncestryOpen states what it computes |
| Items.Depth | src/main/java/com/l2fprod/common/propertysheet/PropertySheetTableModel.java:584-593 | `getDepth()`; Items.DepthCountsPropertyAncestors states what it computes |
| Items.KeyAsWritten | src/main/java/com/l2fprod/common/propertysheet/PropertySheetTableModel.java:615-624 | `getKey()` as written, failing on a null own name; Items.KeyAsWrittenFailsOnlyOnNullName relates it to Items.Key |
| Items.Key | src/main/java/com/l2fprod/common/propertysheet/PropertySheetTableModel.java:615-624 | `getKey()` with a null own name written "null"; Items.KeyJoinsAncestry and Items.KeyOfChild state what it computes |
| Items.Ancestry | src/main/java/com/l2fprod/common/propertysheet/PropertySheetTableModel.java:611-624 | the parent chain walked by `isVisible` and `getKey`: it starts at the item, each entry is the parent of the one before, and it ends at a row without a parent |
| Items.VisibleIffAncestryOpen | src/main/java/com/l2fprod/common/propertysheet/PropertySheetTableModel.java:611-613 | an item is visible exactly when it and each of its ancestors has no toggle or is expanded |
| Items.DepthCountsPropertyAncestors | src/main/java/com/l2fprod/common/propertysheet/PropertySheetTableModel.java:584-593 | the depth is the number of ancestors that are properties; category ancestors add nothing |
| Items.KeyJoinsAncestry | src/main/java/com/l2fprod/common/propertysheet/PropertySheetTableModel.java:615-624 | the key is the item's name, then ":" and the name of each ancestor from the nearest to the root (null written "null") |
| Items.KeyOfChild | src/main/java/com/l2fprod/common/propertysheet/PropertySheetTableModel.java:615-624 | a child's key is its name, ":", then its parent's key |
| Items.KeyAsWrittenFailsOnlyOnNullName | src/main/java/com/l2fprod/common/propertysheet/PropertySheetTableModel.java:615-624 | `getKey` as written fails exactly when the item's own name is null, and elsewhere agrees with the corrected key |
| Items.Toggle | src/main/java/com/l2fprod/common/propertysheet/PropertySheetTableModel.java:599-605 | with a toggle, only the item's expanded flag flips; without one nothing changes |
| Items.ToggleInvolution | src/main/java/com/l2fprod/common/propertysheet/PropertySheetTableModel.java:599-605 | toggling twice restores the rows |
| Items.ToggleKeepsWellFormed | src/main/java/com/l2fprod/common/propertysheet/PropertySheetTableModel.java:599-605 | toggling keeps every parent before its child |
| Items.ToggleAffectsOnlyDescendants | src/main/java/com/l2fprod/common/propertysheet/PropertySheetTableModel.java:599-613 | toggling an item does not change the visibility of any row it is not an ancestor of |
| Items.ToggleFlipsVisibility | src/main/java/com/l2fprod/common/propertysheet/PropertySheetTableModel.java:599-613 | below a visible parent, toggling an item with a toggle flips its visibility |
| Grouping.Distinct | src/main/java/com/l2fprod/common/propertysheet/PropertySheetTableModel.java:500-508 | the kept list has no duplicates and holds exactly the elements of the input |
| Grouping.DistinctFirstOccurrenceOrder | src/main/java/com/l2fprod/common/propertysheet/PropertySheetTableModel.java:500-508 | the kept elements appear in the order of their first occurrence in the input |
| Grouping.PropertyCategories | src/main/java/com/l2fprod/common/propertysheet/PropertySheetTableModel.java:500-508 | each category of the properties exactly once, null included, and nothing else |
| Grouping.PropertiesForCategory | src/main/java/com/l2fprod/common/propertysheet/PropertySheetTableModel.java:532-540 | exactly the properties whose non-null category equals the given one; none for a null category |
| Grouping.PropertiesForCategoryAppend | src/main/java/com/l2fprod/common/propertysheet/PropertySheetTableModel.java:532-540 | the kept properties stay in list order: the filter of a concatenation is the concatenation of the filters |
| Grouping.PropertiesForCategorySingle | src/main/java/com/l2fprod/common/propertysheet/PropertySheetTableModel.java:535-537 | a single property is kept exactly when its category is non-null and equal to the given one |
| Grouping.PropertiesForCategoryCount | src/main/java/com/l2fprod/common/propertysheet/PropertySheetTableModel.java:532-540 | each matching property is kept as often as it occurs in the list, and no other property is kept |
| Ordering.DefaultConfig | src/main/java/com/l2fprod/common/propertysheet/PropertySheetTableModel.java:60-69 | a new model is in flat mode with both sorting flags off, and its default comparators meet the `Comparator` contract |
| Ordering.SortProperties | src/main/java/com/l2fprod/common/propertysheet/PropertySheetTableModel.java:476-486 | a permutation of the input, and the input itself when property sorting is off |
| Ordering.SortCategories | src/main/java/com/l2fprod/common/propertysheet/PropertySheetTableModel.java:488-498 | a permutation of the input, and the input itself when category sorting is off |
| Ordering.SortPropertiesOrdered | src/main/java/com/l2fprod/common/propertysheet/PropertySheetTableModel.java:476-486 | with property sorting on, the output is ordered by the property comparator |
| Ordering.SortCategoriesOrdered | src/main/java/com/l2fprod/common/propertysheet/PropertySheetTableModel.java:488-498 | with category sorting on, the output is ordered by the category comparator |
| Ordering.SortPropertiesStable | src/main/java/com/l2fprod/common/propertysheet/PropertySheetTableModel.java:476-486 | with property sorting on, properties comparing equal (display names equal up to case, or both null, under the default order) keep their list order |
| Ordering.SortCategoriesStable | src/main/java/com/l2fprod/common/propertysheet/PropertySheetTableModel.java:488-498 | with category sorting on, categories comparing equal keep their order |
| Ordering.NullCategorySortsFirst | src/main/java/com/l2fprod/common/propertysheet/PropertySheetTableModel.java:488-498 | under the default comparator, a null category heads the sorted categories |
| Rows.PropertyRows | src/main/java/com/l2fprod/common/propertysheet/PropertySheetTableModel.java:516-527 | `addPropertiesToModel`: the rows for the properties and, depth first, their sub-properties; the four lemmas below state what it computes |
| Rows.PropertyRowsBlock | src/main/java/com/l2fprod/common/propertysheet/PropertySheetTableModel.java:516-527 | every added row is a new property item whose parent is the given parent or a row added before it |
| Rows.PropertyRowsPreorder | src/main/java/com/l2fprod/common/propertysheet/PropertySheetTableModel.java:516-527 | the rows show the properties in depth-first pre-order, each followed by its sub-properties |
| Rows.PropertyRowsTopLevel | src/main/java/com/l2fprod/common/propertysheet/PropertySheetTableModel.java:516-527 | the rows whose parent is the given parent show exactly the given properties, in order |
| Rows.PropertyRowsChildren | src/main/java/com/l2fprod/common/propertysheet/PropertySheetTableModel.java:516-527 | the rows below each added row show exactly that property's sub-properties, in order |
| CategoryView.Members | src/main/java/com/l2fprod/common/propertysheet/PropertySheetTableModel.java:462-464 | the properties listed under a category are those whose non-null category is that category, each as often as in the list, and in list order when property sorting is off |
| CategoryView.CategoryRows | src/main/java/com/l2fprod/common/propertysheet/PropertySheetTableModel.java:459-465 | the category loop; Layout.CategoryRowsLayout states which rows it appends in which order, Nesting.CategoryRowsNested that subtrees stay together, and the lemmas below which rows hang below which |
| CategoryView.CategoryRowsBlock | src/main/java/com/l2fprod/common/propertysheet/PropertySheetTableModel.java:459-465 | each row of the category loop is a new header without a parent, or a new property row below an earlier row |
| CategoryView.CategoryRowsHeaders | src/main/java/com/l2fprod/common/propertysheet/PropertySheetTableModel.java:459-465 | the loop adds one header per category, in the given order |
| CategoryView.CategoryRowsChildren | src/main/java/com/l2fprod/common/propertysheet/PropertySheetTableModel.java:459-465 | the rows below a header show its category's members; the rows below a property row show its sub-properties |
| Layout.PropertyRowsLabels | src/main/java/com/l2fprod/common/propertysheet/PropertySheetTableModel.java:516-527 | the rows of `addPropertiesToModel` are, in order, property rows for the properties in depth-first pre-order |
| Layout.CategoryRowsLayout | src/main/java/com/l2fprod/common/propertysheet/PropertySheetTableModel.java:459-465 | the category loop appends, category after category, the header and then the rows of that category's members in depth-first pre-order |
| Nesting.PropertyRowsNested | src/main/java/com/l2fprod/common/propertysheet/PropertySheetTableModel.java:516-527 | between a row and a row below it, every row of `addPropertiesToModel` hangs below that row or a later one |
| Nesting.CategoryRowsNested | src/main/java/com/l2fprod/common/propertysheet/PropertySheetTableModel.java:459-465 | the same holds for the rows of the category loop, headers included |
| CategoryView.CategoryRowsShape | src/main/java/com/l2fprod/common/propertysheet/PropertySheetTableModel.java:459-465 | from an empty model: the headers follow the categories, no property row lacks a parent, and each row's children are as above |
| Build.BuildModel | src/main/java/com/l2fprod/common/propertysheet/PropertySheetTableModel.java:443-474 | `buildModel`: no rows for no properties or an unknown mode, else the flat or the category layout; Build.FlatModel, Build.CategoryModel, Build.CategoryModelLayout and Build.SubtreeContiguous state what it computes |
| Build.HeaderCategories | src/main/java/com/l2fprod/common/propertysheet/PropertySheetTableModel.java:447-457 | the categories that get a header: those of the sorted properties, each once, then sorted; Build.HeadersOncePerCategory states which they are |
| Build.BuildFresh | src/main/java/com/l2fprod/common/propertysheet/PropertySheetTableModel.java:443-474 | every built row is as its constructor left it, and every parent comes before its child, so the walks up the parent chain end |
| Build.FlatModel | src/main/java/com/l2fprod/common/propertysheet/PropertySheetTableModel.java:450-453 | flat mode: the rows without a parent show the sorted properties (input order with sorting off); all rows show them in pre-order; there are no headers; the rows below each property row show its sub-properties |
| Build.CategoryModel | src/main/java/com/l2fprod/common/propertysheet/PropertySheetTableModel.java:455-466 | category mode: the headers are the sorted distinct categories; no property row lacks a parent; the rows below a header show its category's properties, taken from the whole list |
| Build.CategoryModelLayout | src/main/java/com/l2fprod/common/propertysheet/PropertySheetTableModel.java:455-466 | category mode: the rows are, category after category in header order, the header and then the rows of that category's members in depth-first pre-order |
| Build.BuildNested | src/main/java/com/l2fprod/common/propertysheet/PropertySheetTableModel.java:443-474 | every built model, in every mode, is nested: between a row and a row below it, every row hangs below that row or a later one |
| Build.SubtreeContiguous | src/main/java/com/l2fprod/common/propertysheet/PropertySheetTableModel.java:443-474 | in every built model each row between a row and one of its children descends from that row, so each subtree occupies the rows right after its root |
| Build.HeadersOncePerCategory | src/main/java/com/l2fprod/common/propertysheet/PropertySheetTableModel.java:457-461 | category mode: every category of the properties, null included, has exactly one header, and there is no other header |
| Build.HeaderShowsItsCategory | src/main/java/com/l2fprod/common/propertysheet/PropertySheetTableModel.java:462-464 | below a header are exactly the properties whose category is its non-null name, so a property with a null category gets no row |
| Build.NullCategoryHeaderKey | src/main/java/com/l2fprod/common/propertysheet/PropertySheetTableModel.java:615-616 | a property without a category makes a header named null, on which `getKey` as written fails while the corrected key is "null" |
| Visibility.Shown | src/main/java/com/l2fprod/common/propertysheet/PropertySheetTableModel.java:437-439 | the test of the publishing loop: no parent, or a visible parent; Visibility.Publish and Visibility.BuiltShown state what it selects |
| Visibility.PublishPrefix | src/main/java/com/l2fprod/common/propertysheet/PropertySheetTableModel.java:422-440 | after the first n rows, the loop has published exactly the shown rows among them, each once, in ascending order |
| Visibility.Publish | src/main/java/com/l2fprod/common/propertysheet/PropertySheetTableModel.java:422-440 | the published rows are exactly the rows whose parent is missing or visible, in model order, and there are no more of them than rows |
| Visibility.PublishedItems | src/main/java/com/l2fprod/common/propertysheet/PropertySheetTableModel.java:422-440 | the published items are the model rows at the published indices, in order |
| Visibility.BuiltShown | src/main/java/com/l2fprod/common/propertysheet/PropertySheetTableModel.java:547-566 | a freshly built row is shown exactly when it has no parent or its parent is a header |
| Visibility.BuiltPublished | src/main/java/com/l2fprod/common/propertysheet/PropertySheetTableModel.java:437-439 | right after building, the published rows are exactly the top-level rows and the rows directly below a header |
| Visibility.PublishedPosition | src/main/java/com/l2fprod/common/propertysheet/PropertySheetTableModel.java:423-440 | a published row's position depends only on which earlier rows are shown |
| TableModel.Rebuild | src/main/java/com/l2fprod/common/propertysheet/PropertySheetTableModel.java:443-474 | rebuilding makes fresh rows (as their constructors leave them, so every property row is collapsed again), restores the invariant, and publishes exactly the top-level rows and the rows directly below a header |
| TableModel.NewSheet | src/main/java/com/l2fprod/common/propertysheet/PropertySheetTableModel.java:60-69 | a new model has no properties, default settings and no rows |
| TableModel.SetProperties | src/main/java/com/l2fprod/common/propertysheet/PropertySheetTableModel.java:75-91 | the properties are replaced, the settings kept, the rows rebuilt fresh, and the invariant holds |
| TableModel.AddProperty | src/main/java/com/l2fprod/common/propertysheet/PropertySheetTableModel.java:105-109 | the property is appended after the old ones and the rows rebuilt fresh |
| TableModel.InsertProperty | src/main/java/com/l2fprod/common/propertysheet/PropertySheetTableModel.java:115-119 | an index in `0..size` inserts the property there, keeping the others in order, and rebuilds the rows fresh; any other index fails |
| TableModel.RemoveFirst | src/main/java/com/l2fprod/common/propertysheet/PropertySheetTableModel.java:126 | removing leaves a list without the property unchanged, and otherwise drops its first occurrence only |
| TableModel.RemoveProperty | src/main/java/com/l2fprod/common/propertysheet/PropertySheetTableModel.java:125-129 | the first equal property is dropped and the rows rebuilt fresh |
| TableModel.SetMode | src/main/java/com/l2fprod/common/propertysheet/PropertySheetTableModel.java:153-159 | the same mode changes nothing; a new mode rebuilds the rows; the invariant holds |
| TableModel.SetSortingCategories | src/main/java/com/l2fprod/common/propertysheet/PropertySheetTableModel.java:229-235 | the flag is set and every other setting, comparators included, kept; the same value changes nothing, a new value rebuilds the rows fresh; the invariant holds |
| TableModel.SetSortingProperties | src/main/java/com/l2fprod/common/propertysheet/PropertySheetTableModel.java:252-258 | the flag is set and every other setting, comparators included, kept; the same value changes nothing, a new value rebuilds the rows fresh; the invariant holds |
| TableModel.RowCount | src/main/java/com/l2fprod/common/propertysheet/PropertySheetTableModel.java:191-193 | the row count is the number of published items and never exceeds the model size |
| TableModel.ElementAt | src/main/java/com/l2fprod/common/propertysheet/PropertySheetTableModel.java:210-212 | a row inside the published model gives its item, which is a shown row of the model; any other row fails |
| TableModel.ValueAt | src/main/java/com/l2fprod/common/propertysheet/PropertySheetTableModel.java:346-368 | a header row gives its item; a property row gives its item in the name column, its value in the value column, null otherwise |
| TableModel.SetValueAt | src/main/java/com/l2fprod/common/propertysheet/PropertySheetTableModel.java:383-394 | a write reaches the property only on a property row in the value column |
| TableModel.WriteWhereRead | src/main/java/com/l2fprod/common/propertysheet/PropertySheetTableModel.java:346-394 | `setValueAt` writes a property exactly where `getValueAt` reads that property's value |
| TableModel.ToggleRow | src/main/java/com/l2fprod/common/propertysheet/PropertySheetTableModel.java:599-605 | toggling a published row keeps the properties, the settings and the invariant |
| TableModel.ToggleKeepsRow | src/main/java/com/l2fprod/common/propertysheet/PropertySheetTableModel.java:599-605 | the toggled item stays on the same published row |
| TableModel.ToggleRowTwice | src/main/java/com/l2fprod/common/propertysheet/PropertySheetTableModel.java:599-605 | toggling the same row twice gives back the same table model |
| TableModel.SetModeIdempotent | src/main/java/com/l2fprod/common/propertysheet/PropertySheetTableModel.java:153-159 | setting a mode twice is the same as setting it once |
| TableModel.AddIsInsertAtEnd | src/main/java/com/l2fprod/common/propertysheet/PropertySheetTableModel.java:105-119 | appending is inserting at index `size` |
| TableModel.RemoveUndoesAdd | src/main/java/com/l2fprod/common/propertysheet/PropertySheetTableModel.java:105-129 | removing a property just appended, which was absent before, gives back the old list |

## Left out

- Swing and listener plumbing: `fireTableDataChanged`, the `PropertyChangeSupport` forwarding in `propertyChange`, and adding or removing the model as a listener on properties. These are event side effects that keep no state the rows depend on.
- `Property.getValue` and `setValue`, and the exceptions they log and swallow. These are calls into code outside the model. `ValueAt` and `SetValueAt` return which property would be read or written, not the value.
- `setCategorySortingComparator` and `setPropertySortingComparator`. They rebuild only when the comparator object changes by reference identity, which has no meaning for Dafny functions. The comparators are fields of `Config` instead. The default comparators are installed at construction rather than lazily in `sortProperties` and `sortCategories`; the resulting order is the same.
- The toggle-state snapshot: `setRestoreToggleStates`, `getToggleStates`, `setToggleStates`, and the `restoreOldStates` branch of `visibilityChanged`. The model always runs with restoring off, the constructor's default. `getKey`, which only that branch calls, is still modelled.
- Null entries in the property list. `addPropertiesToModel` throws on them, so properties here are values, never null. A null and an empty sub-property array behave the same and are both the empty sequence.
- Property identity. `removeProperty` finds the property to drop with `List.remove`, which compares with `equals`; the model takes that as value equality of `Property`.
- Strings.ToLowerCase: maps only the ASCII letters A-Z. Java's `toLowerCase` also lowers non-ASCII capitals, depends on the locale, and can change the length of a string; none of that is modelled.
- Comparators.PropertyComparatorCompare: compares names lowered by Strings.ToLowerCase, so it inherits its ASCII-only case mapping.
- Strings.CompareTo: characters are Dafny `char`s (Unicode scalar values), not UTF-16 code units, so strings with surrogate pairs may compare differently from Java.
- Strings.CompareToTransitive: inherits the character model of Strings.CompareTo.
- Sorting.SortBy: `Collections.sort` is a merge sort. It is modelled by a stable insertion sort. For a valid comparator both give the same stable order; for a comparator that breaks the contract the Java sort may throw, which is not modelled.
- The trivial getters: `getProperties`, `getPropertyCount`, `propertyIterator`, `getMode`, `isSortingCategories`, `isSortingProperties`, `getColumnCount`, `getColumnClass`, `getObject`.
- `BooleanPropertyEditor` and `JCollapsiblePaneBeanInfo`. These are editor and bean-descriptor glue around Swing and `java.beans`, with no row logic.

## Findings

| source | as written | input that shows it | evidently intended | confidence | as-written member | corrected member |
|---|---|---|---|---|---|---|
| src/main/java/com/l2fprod/common/propertysheet/PropertySheetTableModel.java:615-616 | `getKey` starts with `new StringBuilder(name)`, which throws a `NullPointerException` when the item's own name is null, yet it appends a null ancestor name as "null" | category view with one property whose category is null: the model has a header named null, and its key fails. A property row with a null display name fails the same way. Inside the class, `getKey` runs only from `visibilityChanged` when restoring toggle states is on; it is also public on `Item` | the item's own null name is written "null", as the ancestor names are | not executed | Items.KeyAsWritten, Build.NullCategoryHeaderKey | Items.Key, Items.KeyJoinsAncestry |
