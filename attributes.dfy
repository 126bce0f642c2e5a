/** A named attribute (variable) of a data set: its type, name, optional
    description and weight, all fixed when the attribute is built. */
module Attributes {
  import opened Basics

  datatype AttributeType = Numeric | Nominal

  /** The weight an attribute gets when none is given. */
  const DefaultWeight: real := 1.0

  datatype Attribute = Attribute(attrType: AttributeType, name: string, description: Option<string>, weight: real)

  /** The two-argument constructor: no description, the default weight. */
  function Named(attrType: AttributeType, name: string): (a: Attribute)
    ensures a.attrType == attrType && a.name == name
    ensures a.description == None && a.weight == DefaultWeight
  {
    Weighted(attrType, name, DefaultWeight)
  }

  /** The constructor taking a weight: no description. */
  function Weighted(attrType: AttributeType, name: string, weight: real): (a: Attribute)
    ensures a.attrType == attrType && a.name == name
    ensures a.description == None && a.weight == weight
  {
    Attribute(attrType, name, None, weight)
  }

  /** The constructor taking a description: the default weight. */
  function Described(attrType: AttributeType, name: string, description: string): (a: Attribute)
    ensures a.attrType == attrType && a.name == name
    ensures a.description == Some(description) && a.weight == DefaultWeight
  {
    Attribute(attrType, name, Some(description), DefaultWeight)
  }

  /** The printed form of an enum constant. */
  function TypeName(t: AttributeType): (s: string)
    ensures |s| == 7
  {
    match t
    case Numeric => "NUMERIC"
    case Nominal => "NOMINAL"
  }

  /** `a.equals(o)`: `o` is `None` when it is null or not an attribute. Two
      attributes are equal when they agree on name and type and both carry
      the same non-null description; the weight plays no part. */
  function Equals(a: Attribute, o: Option<Attribute>): (r: bool)
    ensures r <==> o.Some? && o.value.name == a.name && o.value.attrType == a.attrType
                   && a.description.Some? && o.value.description == a.description
  {
    match o
    case None => false
    case Some(b) =>
      if a.name == b.name && a.attrType == b.attrType then
        if a.description.Some? && b.description.Some? && a.description.value == b.description.value
        then true
        else false
      else false
  }

  /** `a.toString()`: the type name, then the name in square brackets. */
  function ToString(a: Attribute): (s: string)
    ensures |s| == |a.name| + 9
    ensures s[..7] == TypeName(a.attrType) && s[7] == '[' && s[|s| - 1] == ']'
    ensures s[8..|s| - 1] == a.name
  {
    TypeName(a.attrType) + "[" + a.name + "]"
  }

  /** An attribute without a description is not equal to itself. */
  lemma NotReflexiveWithoutDescription(a: Attribute)
    requires a.description == None
    ensures !Equals(a, Some(a))
  {
  }

  /** With a description, an attribute is equal to itself. */
  lemma ReflexiveWithDescription(a: Attribute)
    requires a.description.Some?
    ensures Equals(a, Some(a))
  {
  }

  lemma EqualsSymmetric(a: Attribute, b: Attribute)
    ensures Equals(a, Some(b)) == Equals(b, Some(a))
  {
  }

  lemma EqualsTransitive(a: Attribute, b: Attribute, c: Attribute)
    requires Equals(a, Some(b)) && Equals(b, Some(c))
    ensures Equals(a, Some(c))
  {
  }

  /** Equality ignores the weight. */
  lemma EqualsIgnoresWeight(a: Attribute, b: Attribute, w: real)
    ensures Equals(a, Some(b)) == Equals(a.(weight := w), Some(b))
  {
  }

  /** The type and the name can be read back from the printed form. */
  lemma {:induction false} ToStringInjective(a: Attribute, b: Attribute)
    requires ToString(a) == ToString(b)
    ensures a.attrType == b.attrType && a.name == b.name
  {
    var s := ToString(a);
    assert TypeName(a.attrType) == s[..7] == TypeName(b.attrType);
  }

  /** Equal attributes print the same. */
  lemma EqualsThenSameString(a: Attribute, b: Attribute)
    requires Equals(a, Some(b))
    ensures ToString(a) == ToString(b)
  {
  }
}
