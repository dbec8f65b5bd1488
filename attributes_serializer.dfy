/**
 * The JSON form of directory attributes in the Boot security sample
 * (AttributesSerializer.java). Each attribute becomes one field named by
 * its id: no value is written as null, one value as that value, several as
 * a list of all of them. Attributes of any other kind are left to the
 * default serialization. The generator is modelled by the sequence of
 * writes it receives.
 */
module Serialization {

  /** A NameAwareAttribute: its id and its values, in iteration order. */
  datatype Attr<V> = Attr(id: string, values: seq<V>)

  /** The value handed to the generator for one field. */
  datatype FieldValue<V> = Null | Single(value: V) | Many(values: seq<V>)

  /** One write to the generator. */
  datatype Write<V> = Field(name: string, value: FieldValue<V>) | DefaultValue

  /** The value being serialized: NameAwareAttributes with its attributes in
      the order its iterator yields them, or any other Attributes. */
  datatype Attrs<V> = NameAware(all: seq<Attr<V>>) | OtherAttributes

  /** The values a field value stands for. */
  function ValuesOf<V>(f: FieldValue<V>): seq<V> {
    match f
    case Null => []
    case Single(v) => [v]
    case Many(vs) => vs
  }

  /** The field value of one attribute, by its number of values. */
  function FieldValueOf<V>(a: Attr<V>): (r: FieldValue<V>)
    ensures ValuesOf(r) == a.values
    ensures r.Null? <==> |a.values| == 0
    ensures r.Single? <==> |a.values| == 1
    ensures r.Many? ==> |r.values| >= 2
  {
    if |a.values| == 0 then Null
    else if |a.values| == 1 then Single(a.values[0])
    else Many(a.values)
  }

  /** Two attributes give the same field value exactly when they hold the
      same values in the same order. */
  lemma FieldValueFaithful<V>(a: Attr<V>, b: Attr<V>)
    ensures FieldValueOf(a) == FieldValueOf(b) <==> a.values == b.values
  {
    if FieldValueOf(a) == FieldValueOf(b) {
      assert ValuesOf(FieldValueOf(a)) == ValuesOf(FieldValueOf(b));
    }
  }

  /** The fields written for a run of attributes, one per attribute, in order. */
  function FieldsOf<V>(all: seq<Attr<V>>): (r: seq<Write<V>>)
    ensures |r| == |all|
    ensures forall i | 0 <= i < |all| :: r[i] == Field(all[i].id, FieldValueOf(all[i]))
  {
    if all == [] then []
    else FieldsOf(all[..|all| - 1]) + [Field(all[|all| - 1].id, FieldValueOf(all[|all| - 1]))]
  }

  /** Everything serialize writes for value. */
  function Serialized<V>(value: Attrs<V>): (r: seq<Write<V>>)
    ensures value.OtherAttributes? ==> r == [DefaultValue]
    ensures value.NameAware? ==> |r| == |value.all| && forall i | 0 <= i < |r| :: r[i].Field? && r[i].name == value.all[i].id
    ensures value.NameAware? ==> forall i | 0 <= i < |r| :: ValuesOf(r[i].value) == value.all[i].values
  {
    match value
    case OtherAttributes => [DefaultValue]
    case NameAware(all) => FieldsOf(all)
  }

  /** The JsonGenerator, as the writes it has received. */
  class Generator<V> {
    var writes: seq<Write<V>>

    constructor ()
      ensures writes == []
    {
      writes := [];
    }

    /** serializers.defaultSerializeField(name, value, gen) */
    method WriteField(name: string, value: FieldValue<V>)
      modifies this
      ensures writes == old(writes) + [Field(name, value)]
    {
      writes := writes + [Field(name, value)];
    }

    /** serializers.defaultSerializeValue(value, gen) */
    method WriteDefault()
      modifies this
      ensures writes == old(writes) + [DefaultValue]
    {
      writes := writes + [DefaultValue];
    }
  }

  /** attribute.forEach(mapElement::add): all values, in order. */
  method CollectValues<V>(a: Attr<V>) returns (mapElement: seq<V>)
    ensures mapElement == a.values
  {
    mapElement := [];
    var n := 0;
    while n < |a.values|
      invariant 0 <= n <= |a.values|
      invariant mapElement == a.values[..n]
    {
      mapElement := mapElement + [a.values[n]];
      n := n + 1;
    }
  }

  /** serialize(value, gen) */
  method Serialize<V>(value: Attrs<V>, gen: Generator<V>)
    modifies gen
    ensures gen.writes == old(gen.writes) + Serialized(value)
  {
    if value.OtherAttributes? {
      gen.WriteDefault();
      return;
    }
    var all := value.all;
    var n := 0;
    while n < |all|
      invariant 0 <= n <= |all|
      invariant gen.writes == old(gen.writes) + FieldsOf(all[..n])
    {
      var attribute := all[n];
      var fieldValue: FieldValue<V>;
      if |attribute.values| == 0 {
        fieldValue := Null;
      } else if |attribute.values| == 1 {
        fieldValue := Single(attribute.values[0]);
      } else {
        var mapElement := CollectValues(attribute);
        fieldValue := Many(mapElement);
      }
      assert all[..n + 1][..n] == all[..n];
      assert FieldsOf(all[..n + 1]) == FieldsOf(all[..n]) + [Field(attribute.id, fieldValue)];
      gen.WriteField(attribute.id, fieldValue);
      n := n + 1;
    }
    assert all[..n] == all;
  }
}
