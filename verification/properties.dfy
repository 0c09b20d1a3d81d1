/** The properties a sheet displays, as far as the table model looks at them. */
module Properties {
  import opened Options

  /** A `Property`: its display name and category (either may be null) and
      its sub-properties (a null array and an empty one behave alike). */
  datatype Property = Property(
    displayName: Option<string>,
    category: Option<string>,
    subProperties: seq<Property>)
  {
    predicate HasSubProperties() {
      |subProperties| > 0
    }
  }

  /** The properties of a forest in depth-first pre-order: each property
      followed by the pre-order of its sub-properties. */
  function Preorder(ps: seq<Property>): seq<Property>
    decreases ps
  {
    if ps == [] then []
    else [ps[0]] + Preorder(ps[0].subProperties) + Preorder(ps[1..])
  }

  /** The categories of a list of properties, position by position. */
  function Categories(ps: seq<Property>): (r: seq<Option<string>>)
    ensures |r| == |ps|
    ensures forall i :: 0 <= i < |ps| ==> r[i] == ps[i].category
  {
    seq(|ps|, i requires 0 <= i < |ps| => ps[i].category)
  }
}
