/** A nominal (categorical) attribute: a vocabulary that gives each string
    value an integer code, its position in the list of values. An open
    vocabulary appends unknown strings; a closed one rejects them. */
module Nominal {
  import opened Basics
  import Attributes

  datatype NominalError =
    | InvalidStringValue(s: string)   // valueOf on a closed attribute
    | NotAnInteger(x: Double)         // toString of a fractional code
    | InvalidNominalValue(x: Double)  // toString of a code out of range

  /** The table invariant: the coded strings are exactly the listed values,
      and every string's code is a position that holds that string. */
  ghost predicate Consistent(values: seq<string>, codes: map<string, int>) {
    && (forall s :: s in codes <==> s in values)
    && (forall s :: s in codes ==> 0 <= codes[s] < |values| && values[codes[s]] == s)
  }

  predicate Distinct(values: seq<string>) {
    forall i, j :: 0 <= i < j < |values| ==> values[i] != values[j]
  }

  /** Without duplicates, the code of every value is its position. */
  lemma DistinctCodesArePositions(values: seq<string>, codes: map<string, int>)
    requires Consistent(values, codes) && Distinct(values)
    ensures forall i :: 0 <= i < |values| ==> values[i] in codes && codes[values[i]] == i
  {
    forall i | 0 <= i < |values|
      ensures values[i] in codes && codes[values[i]] == i
    {
      assert values[i] in values;
    }
  }

  /** Appending an unknown string under the next code keeps the table
      consistent and free of duplicates. */
  lemma AppendKeepsConsistent(values: seq<string>, codes: map<string, int>, s: string)
    requires Consistent(values, codes) && s !in codes
    ensures Consistent(values + [s], codes[s := |values|])
    ensures Distinct(values) ==> Distinct(values + [s])
  {
    var values', codes' := values + [s], codes[s := |values|];
    forall t ensures t in codes' <==> t in values' {
      if t in values' && t != s {
        var k :| 0 <= k < |values'| && values'[k] == t;
        assert values[k] == t;
      }
    }
  }

  /** With duplicate values, decoding a position and encoding the string again
      need not give back the position: the table keeps the last occurrence. */
  lemma DuplicatesBreakDecodeEncode(values: seq<string>, codes: map<string, int>)
    requires values == ["a", "a"] && codes == map["a" := 1]
    ensures Consistent(values, codes)
    ensures values[0] in codes && codes[values[0]] != 0
  {
    forall t ensures t in codes <==> t in values {
      if t in values {
        var k :| 0 <= k < |values| && values[k] == t;
      }
    }
  }

  class NominalAttribute {
    /** The fields inherited from the attribute. */
    const attribute: Attributes.Attribute
    var open: bool
    var values: seq<string>
    var codes: map<string, int>

    ghost predicate Valid()
      reads this
    {
      attribute.attrType == Attributes.Nominal && Consistent(values, codes)
    }

    /** `NominalAttribute(name)`: open, empty, no description, default weight. */
    constructor (name: string)
      ensures Valid()
      ensures attribute == Attributes.Attribute(Attributes.Nominal, name, None, Attributes.DefaultWeight)
      ensures open && values == [] && codes == map[]
    {
      attribute := Attributes.Attribute(Attributes.Nominal, name, None, Attributes.DefaultWeight);
      values, codes, open := [], map[], true;
    }

    /** `NominalAttribute(name, weight)`. */
    constructor WithWeight(name: string, weight: real)
      ensures Valid()
      ensures attribute == Attributes.Attribute(Attributes.Nominal, name, None, weight)
      ensures open && values == [] && codes == map[]
    {
      attribute := Attributes.Attribute(Attributes.Nominal, name, None, weight);
      values, codes, open := [], map[], true;
    }

    /** `NominalAttribute(name, description)`. */
    constructor WithDescription(name: string, description: string)
      ensures Valid()
      ensures attribute == Attributes.Attribute(Attributes.Nominal, name, Some(description), Attributes.DefaultWeight)
      ensures open && values == [] && codes == map[]
    {
      attribute := Attributes.Attribute(Attributes.Nominal, name, Some(description), Attributes.DefaultWeight);
      values, codes, open := [], map[], true;
    }

    /** `NominalAttribute(name, description, weight)`; the description may be null. */
    constructor Full(name: string, description: Option<string>, weight: real)
      ensures Valid()
      ensures attribute == Attributes.Attribute(Attributes.Nominal, name, description, weight)
      ensures open && values == [] && codes == map[]
    {
      attribute := Attributes.Attribute(Attributes.Nominal, name, description, weight);
      values, codes, open := [], map[], true;
    }

    /** `NominalAttribute(name, values)`: closed, over the given values. */
    constructor Closed(name: string, vals: seq<string>)
      ensures Valid() && !open && values == vals
      ensures attribute == Attributes.Attribute(Attributes.Nominal, name, None, Attributes.DefaultWeight)
      ensures forall s :: s in codes ==> forall j :: codes[s] < j < |vals| ==> vals[j] != s
      ensures Distinct(vals) ==> forall i :: 0 <= i < |vals| ==> codes[vals[i]] == i
    {
      attribute := Attributes.Attribute(Attributes.Nominal, name, None, Attributes.DefaultWeight);
      values, codes, open := [], map[], false;
      new;
      AddAll(vals);
      if Distinct(vals) {
        DistinctCodesArePositions(values, codes);
      }
    }

    /** `NominalAttribute(name, weight, values)`. */
    constructor ClosedWithWeight(name: string, weight: real, vals: seq<string>)
      ensures Valid() && !open && values == vals
      ensures attribute == Attributes.Attribute(Attributes.Nominal, name, None, weight)
      ensures forall s :: s in codes ==> forall j :: codes[s] < j < |vals| ==> vals[j] != s
      ensures Distinct(vals) ==> forall i :: 0 <= i < |vals| ==> codes[vals[i]] == i
    {
      attribute := Attributes.Attribute(Attributes.Nominal, name, None, weight);
      values, codes, open := [], map[], false;
      new;
      AddAll(vals);
      if Distinct(vals) {
        DistinctCodesArePositions(values, codes);
      }
    }

    /** `NominalAttribute(name, description, values)`. */
    constructor ClosedWithDescription(name: string, description: string, vals: seq<string>)
      ensures Valid() && !open && values == vals
      ensures attribute == Attributes.Attribute(Attributes.Nominal, name, Some(description), Attributes.DefaultWeight)
      ensures forall s :: s in codes ==> forall j :: codes[s] < j < |vals| ==> vals[j] != s
      ensures Distinct(vals) ==> forall i :: 0 <= i < |vals| ==> codes[vals[i]] == i
    {
      attribute := Attributes.Attribute(Attributes.Nominal, name, Some(description), Attributes.DefaultWeight);
      values, codes, open := [], map[], false;
      new;
      AddAll(vals);
      if Distinct(vals) {
        DistinctCodesArePositions(values, codes);
      }
    }

    /** `NominalAttribute(name, description, weight, values)`. */
    constructor ClosedFull(name: string, description: Option<string>, weight: real, vals: seq<string>)
      ensures Valid() && !open && values == vals
      ensures attribute == Attributes.Attribute(Attributes.Nominal, name, description, weight)
      ensures forall s :: s in codes ==> forall j :: codes[s] < j < |vals| ==> vals[j] != s
      ensures Distinct(vals) ==> forall i :: 0 <= i < |vals| ==> codes[vals[i]] == i
    {
      attribute := Attributes.Attribute(Attributes.Nominal, name, description, weight);
      values, codes, open := [], map[], false;
      new;
      AddAll(vals);
      if Distinct(vals) {
        DistinctCodesArePositions(values, codes);
      }
    }

    /** The loop of the closed constructors: list each value in order and
      code it by its position, a later duplicate overriding an earlier one. */
    method AddAll(vals: seq<string>)
      requires attribute.attrType == Attributes.Nominal
      requires values == [] && codes == map[]
      modifies this`values, this`codes
      ensures Valid() && values == vals
      ensures forall s :: s in codes ==> forall j :: codes[s] < j < |vals| ==> vals[j] != s
    {
      for i := 0 to |vals|
        invariant values == vals[..i]
        invariant Consistent(values, codes)
        invariant forall s :: s in codes ==> forall j :: codes[s] < j < i ==> vals[j] != s
      {
        var s := vals[i];
        forall t ensures t in codes[s := i] <==> t in values + [s] {
          if t in values + [s] && t != s {
            var k :| 0 <= k < |values + [s]| && (values + [s])[k] == t;
            assert values[k] == t;
          }
        }
        values := values + [s];
        codes := codes[s := i];
      }
      assert vals[..|vals|] == vals;
    }

    /** `size()`: the number of values. */
    function Size(): nat
      reads this
    {
      |values|
    }

    function IsOpen(): bool
      reads this
    {
      open
    }

    /** `setOpen(b)`. */
    method SetOpen(b: bool)
      modifies this`open
      ensures open == b
    {
      open := b;
    }

    /** `values()`: the values in code order. */
    function Values(): (r: seq<string>)
      reads this
      requires Valid()
      ensures |r| == Size() && forall i :: 0 <= i < |r| ==> ToString(Finite(i as real)) == Success(Some(r[i]))
    {
      values
    }

    /** `valueOf(s)`: the code of a known string; on an open attribute an
      unknown string is appended with the next code; on a closed one it is
      rejected and nothing changes. */
    method ValueOf(s: string) returns (r: Result<Double, NominalError>)
      requires Valid()
      modifies this`values, this`codes
      ensures Valid()
      ensures s in old(codes) ==>
        r == Success(Finite(old(codes)[s] as real)) && values == old(values) && codes == old(codes)
      ensures s !in old(codes) && open ==>
        && r == Success(Finite(old(Size()) as real))
        && values == old(values) + [s] && codes == old(codes)[s := old(Size())]
        && Size() == old(Size()) + 1
      ensures s !in old(codes) && !open ==>
        r == Failure(InvalidStringValue(s)) && values == old(values) && codes == old(codes)
      ensures r.Success? ==> ToString(r.value) == Success(Some(s))
      ensures Distinct(old(values)) ==> Distinct(values)
    {
      if s in codes {
        r := Success(Finite(codes[s] as real));
      } else if open {
        var i := |values|;
        AppendKeepsConsistent(values, codes, s);
        codes := codes[s := i];
        values := values + [s];
        r := Success(Finite(i as real));
      } else {
        r := Failure(InvalidStringValue(s));
      }
    }

    /** `toString(x)`: null for a missing value (NaN), an error for a
      fractional code or one outside `[0, size())`, otherwise the value
      with that code. */
    function ToString(x: Double): (r: Result<Option<string>, NominalError>)
      reads this
      ensures r == Success(None) <==> x == NaN
      ensures r.Success? && r.value.Some? <==>
                x.Finite? && x.value.Floor as real == x.value && 0 <= x.value.Floor < |values|
      ensures r.Success? && r.value.Some? ==> r.value.value == values[x.value.Floor]
      ensures x.Finite? && x.value.Floor as real != x.value ==> r == Failure(NotAnInteger(x))
      ensures r.Failure? && x.Finite? && x.value.Floor as real == x.value ==> r == Failure(InvalidNominalValue(x))
      ensures x.PositiveInfinity? || x.NegativeInfinity? ==> r == Failure(InvalidNominalValue(x))
    {
      match x
      case NaN => Success(None)
      case Finite(v) =>
        if v.Floor as real != v then Failure(NotAnInteger(x))
        else if v < 0.0 || v >= |values| as real then Failure(InvalidNominalValue(x))
        else Success(Some(values[v.Floor]))
      // an infinity equals its own floor and fails the range test
      case PositiveInfinity => Failure(InvalidNominalValue(x))
      case NegativeInfinity => Failure(InvalidNominalValue(x))
    }
  }

  /** Encoding then decoding gives back the string: the code `valueOf`
      returns for a known string is decoded by `toString` to that string. */
  lemma EncodeDecode(a: NominalAttribute, s: string)
    requires a.Valid() && s in a.codes
    ensures a.ToString(Finite(a.codes[s] as real)) == Success(Some(s))
  {
    var k := a.codes[s];
    assert (k as real).Floor == k;
  }

  /** Decoding then encoding gives back the code, when the values are distinct. */
  lemma DecodeEncode(a: NominalAttribute, x: Double, s: string)
    requires a.Valid() && Distinct(a.values)
    requires a.ToString(x) == Success(Some(s))
    ensures s in a.codes && (a.codes[s] as real) == x.value
  {
    DistinctCodesArePositions(a.values, a.codes);
    assert a.values[x.value.Floor] == s;
  }
}
