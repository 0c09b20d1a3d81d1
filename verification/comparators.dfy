/**
 The default comparators of the table model: `NaturalOrderStringComparator`
 for category names and `PropertyComparator` for properties.
 */
module Comparators {
  import opened Options
  import opened Strings
  import opened Sorting
  import opened Properties

  /** Null equals null, null sorts before every string, and two strings
      compare with `String.compareTo`. */
  function NaturalOrderCompare(s1: Option<string>, s2: Option<string>): (r: int)
    ensures r == 0 <==> s1 == s2
    ensures s1.None? && s2.Some? ==> r < 0
    ensures s1.Some? && s2.None? ==> r > 0
  {
    if s1.None? then
      (if s2.None? then 0 else -1)
    else if s2.None? then
      1
    else
      CompareToZeroIffEqual(s1.value, s2.value);
      CompareTo(s1.value, s2.value)
  }

  /** The natural order satisfies the comparator contract. */
  lemma NaturalOrderValid()
    ensures ValidComparator(NaturalOrderCompare)
  {
    forall x, y
      ensures Sign(NaturalOrderCompare(x, y)) == -Sign(NaturalOrderCompare(y, x))
    {
      if x.Some? && y.Some? {
        CompareToAntisymmetric(x.value, y.value);
      }
    }
    forall x, y, z | NaturalOrderCompare(x, y) <= 0 && NaturalOrderCompare(y, z) <= 0
      ensures NaturalOrderCompare(x, z) <= 0
    {
      if x.Some? && y.Some? && z.Some? {
        CompareToTransitive(x.value, y.value, z.value);
      }
    }
  }

  /** The arguments `PropertyComparator.compare` may receive: a property, or
      any other object. */
  datatype Comparand = PropertyObject(property: Property) | OtherObject

  /** The lower-cased display name, null when the display name is null. */
  function LowerName(p: Property): Option<string> {
    if p.displayName.None? then None else Some(ToLowerCase(p.displayName.value))
  }

  /** Two properties compare by their lower-cased display names; any pair
      that is not two properties compares as equal. */
  function PropertyComparatorCompare(o1: Comparand, o2: Comparand): (r: int)
    ensures !(o1.PropertyObject? && o2.PropertyObject?) ==> r == 0
    ensures o1.PropertyObject? && o2.PropertyObject? ==>
      (r == 0 <==> LowerName(o1.property) == LowerName(o2.property))
  {
    if o1.PropertyObject? && o2.PropertyObject? then
      NaturalOrderCompare(LowerName(o1.property), LowerName(o2.property))
    else
      0
  }

  /** The property order the sheet sorts with unless told otherwise. */
  function DefaultPropertyOrder(p1: Property, p2: Property): int {
    PropertyComparatorCompare(PropertyObject(p1), PropertyObject(p2))
  }

  /** The default property order satisfies the comparator contract. */
  lemma DefaultPropertyOrderValid()
    ensures ValidComparator(DefaultPropertyOrder)
  {
    NaturalOrderValid();
    forall x, y
      ensures Sign(DefaultPropertyOrder(x, y)) == -Sign(DefaultPropertyOrder(y, x))
    {
      assert Sign(NaturalOrderCompare(LowerName(x), LowerName(y)))
          == -Sign(NaturalOrderCompare(LowerName(y), LowerName(x)));
    }
    forall x, y, z | DefaultPropertyOrder(x, y) <= 0 && DefaultPropertyOrder(y, z) <= 0
      ensures DefaultPropertyOrder(x, z) <= 0
    {
      assert NaturalOrderCompare(LowerName(x), LowerName(y)) <= 0;
      assert NaturalOrderCompare(LowerName(y), LowerName(z)) <= 0;
    }
  }
}
