/** The encoders of `QObjectHelper`: an object to a JSON object, to a variant
    map (recursing into child objects), and to compact JSON text. They read
    the object and never change it; each loop over the property table is a
    method proved equal to a reference definition. */
module Encoders {
  import opened Values
  import opened QtConversions
  import Base64

  /** The default ignored list of the three encoders: `objectName` only. */
  const DefaultIgnored: seq<string> := ["objectName"]

  /** A property the encoders emit: readable and not in the ignored list. */
  predicate Enumerated(p: PropertyDescriptor, ignored: seq<string>)
  {
    p.readable && p.name !in ignored
  }

  /** The names of the properties the encoders emit. */
  function IncludedNames(props: seq<PropertyDescriptor>, ignored: seq<string>): set<string>
  {
    set i | 0 <= i < |props| && Enumerated(props[i], ignored) :: props[i].name
  }

  lemma IncludedNamesStep(props: seq<PropertyDescriptor>, ignored: seq<string>, n: nat)
    requires n < |props|
    ensures IncludedNames(props[..n + 1], ignored)
         == IncludedNames(props[..n], ignored) + (if Enumerated(props[n], ignored) then {props[n].name} else {})
  {
    var a, b := props[..n + 1], props[..n];
    forall k | k in IncludedNames(a, ignored)
      ensures k in IncludedNames(b, ignored) + (if Enumerated(props[n], ignored) then {props[n].name} else {})
    {
      var i :| 0 <= i < |a| && Enumerated(a[i], ignored) && a[i].name == k;
      if i < n {
        assert b[i] == a[i];
      }
    }
    forall k | k in IncludedNames(b, ignored) ensures k in IncludedNames(a, ignored) {
      var i :| 0 <= i < |b| && Enumerated(b[i], ignored) && b[i].name == k;
      assert a[i] == b[i];
    }
    if Enumerated(props[n], ignored) {
      assert a[n] == props[n];
    }
  }

  // ---------------------------------------------------------------------
  // qobject2qjsonobject and qobject2json

  /** The JSON object of the first `n` properties: each emitted name mapped
      to `fromVariant` of the property's current value. */
  function PartialJsonObject(qt: Qt, o: ObjectState, ignored: seq<string>, n: nat): map<string, Json>
    requires n <= |o.props|
  {
    JsonObjectOf(qt, ObjectState(o.props[..n], o.values), ignored)
  }

  /** Reference definition of `qobject2qjsonobject(object, ignored)`. */
  function JsonObjectOf(qt: Qt, o: ObjectState, ignored: seq<string>): map<string, Json>
  {
    map k | k in IncludedNames(o.props, ignored) :: qt.fromVariant(PropertyValue(o, k))
  }

  /** `qobject2qjsonobject`: walks the property table and inserts every
      readable, non-ignored property under its name. */
  method QObjectToQJsonObject(qt: Qt, o: ObjectState, ignored: seq<string>) returns (r: map<string, Json>)
    ensures r.Keys == IncludedNames(o.props, ignored)
    ensures forall k :: k in r ==> r[k] == qt.fromVariant(PropertyValue(o, k))
    ensures r == JsonObjectOf(qt, o, ignored)
  {
    r := map[];
    var i := 0;
    while i < |o.props|
      invariant 0 <= i <= |o.props|
      invariant r == PartialJsonObject(qt, o, ignored, i)
    {
      var p := o.props[i];
      IncludedNamesStep(o.props, ignored, i);
      if p.name in ignored || !p.readable {
        // skipped
      } else {
        r := r[p.name := qt.fromVariant(PropertyValue(o, p.name))];
      }
      i := i + 1;
    }
    assert o.props[..i] == o.props;
  }

  /** `qobject2json`: the compact text of `qobject2qjsonobject`. */
  function QObjectToJson(qt: Qt, o: ObjectState, ignored: seq<string>): (r: string)
    ensures RoundTrips(qt, JsonObjectOf(qt, o, ignored)) ==>
              qt.parse(r).Parsed? && qt.parse(r).doc.DocObject?
              && qt.parse(r).doc.obj.Keys == IncludedNames(o.props, ignored)
              && forall k :: k in qt.parse(r).doc.obj ==> qt.parse(r).doc.obj[k] == qt.fromVariant(PropertyValue(o, k))
    ensures RoundTrips(qt, JsonObjectOf(qt, o, ignored)) && ignored == DefaultIgnored ==>
              "objectName" !in qt.parse(r).doc.obj
  {
    qt.serialize(JsonObjectOf(qt, o, ignored))
  }

  /** Encoding reads only the readable, non-ignored properties: two states
      with the same table that agree on those give the same JSON object and
      byte-identical text, so encoding an unchanged object twice gives the
      same text. */
  lemma EncodingDependsOnlyOnEnumerated(qt: Qt, o1: ObjectState, o2: ObjectState, ignored: seq<string>)
    requires o1.props == o2.props
    requires forall k :: k in IncludedNames(o1.props, ignored) ==> PropertyValue(o1, k) == PropertyValue(o2, k)
    ensures JsonObjectOf(qt, o1, ignored) == JsonObjectOf(qt, o2, ignored)
    ensures QObjectToJson(qt, o1, ignored) == QObjectToJson(qt, o2, ignored)
  {
    var m1, m2 := JsonObjectOf(qt, o1, ignored), JsonObjectOf(qt, o2, ignored);
    assert m1.Keys == m2.Keys;
    forall k | k in m1 ensures m1[k] == m2[k] {
    }
  }

  /** With the default list `objectName` is never a key; with an empty list
      a readable `objectName` property appears. */
  lemma ObjectNameIgnoredByDefault(qt: Qt, o: ObjectState)
    ensures "objectName" !in JsonObjectOf(qt, o, DefaultIgnored)
    ensures (exists i :: 0 <= i < |o.props| && o.props[i].name == "objectName" && o.props[i].readable)
            ==> "objectName" in JsonObjectOf(qt, o, [])
  {
    if exists i :: 0 <= i < |o.props| && o.props[i].name == "objectName" && o.props[i].readable {
      var i :| 0 <= i < |o.props| && o.props[i].name == "objectName" && o.props[i].readable;
      assert Enumerated(o.props[i], []);
    }
  }

  // ---------------------------------------------------------------------
  // qobject2variantmap

  /** How `qobject2variantmap` stores one valid property value: a child
      object as its own variant map (default ignored list; a null child as an
      empty map), an object list as a list of such maps (a null element as an
      invalid variant), a byte array as its Base64 text, anything else
      unchanged. */
  function EncodedVariant(v: Variant): Variant
    decreases v
  {
    match v
    case VObject(c) => VMap(if c.Some? then VariantMapOf(c, DefaultIgnored) else map[])
    case VObjectList(cs) =>
      VList(seq(|cs|, i requires 0 <= i < |cs| =>
        if cs[i].Some? then VMap(VariantMapOf(cs[i], DefaultIgnored)) else Invalid))
    case VBytes(b) => VString(Base64.Encode(b))
    case _ => v
  }

  /** Reference definition of `qobject2variantmap(object, ignored)`: empty
      for a null object; otherwise every readable, non-ignored property whose
      value is valid, encoded by `EncodedVariant`. */
  function VariantMapOf(o: Option<ObjectState>, ignored: seq<string>): map<string, Variant>
    decreases o
  {
    match o
    case None => map[]
    case Some(s) =>
      map k | k in IncludedNames(s.props, ignored) && k in s.values && s.values[k] != Invalid
        :: EncodedVariant(s.values[k])
  }

  /** The variant map of the first `n` properties. */
  function PartialVariantMap(s: ObjectState, ignored: seq<string>, n: nat): map<string, Variant>
    requires n <= |s.props|
  {
    VariantMapOf(Some(ObjectState(s.props[..n], s.values)), ignored)
  }

  /** `qobject2variantmap`: skips unreadable, ignored and invalid values and
      encodes the rest, recursing into child objects. */
  method QObjectToVariantMap(o: Option<ObjectState>, ignored: seq<string>) returns (r: map<string, Variant>)
    ensures o.None? ==> r == map[]
    ensures o.Some? ==> r.Keys <= IncludedNames(o.value.props, ignored)
    ensures o.Some? ==> forall k :: k in r ==> PropertyValue(o.value, k) != Invalid
    ensures r == VariantMapOf(o, ignored)
    decreases o, 1
  {
    r := map[];
    if o.None? {
      return;
    }
    var s := o.value;
    var i := 0;
    while i < |s.props|
      invariant 0 <= i <= |s.props|
      invariant r == PartialVariantMap(s, ignored, i)
    {
      var p := s.props[i];
      IncludedNamesStep(s.props, ignored, i);
      if !p.readable || p.name in ignored || p.name !in s.values || s.values[p.name] == Invalid {
        // skipped
      } else {
        var e := EncodeValue(s.values[p.name]);
        r := r[p.name := e];
      }
      i := i + 1;
    }
    assert s.props[..i] == s.props;
  }

  /** One valid property value as `qobject2variantmap` stores it. */
  method EncodeValue(v: Variant) returns (e: Variant)
    ensures e == EncodedVariant(v)
    decreases v, 0
  {
    match v {
      case VObject(c) =>
        var m := QObjectToVariantMap(c, DefaultIgnored);
        e := VMap(m);
      case VObjectList(cs) =>
        var list: seq<Variant> := [];
        var j := 0;
        while j < |cs|
          invariant 0 <= j <= |cs|
          invariant |list| == j
          invariant forall t :: 0 <= t < j ==> list[t] == EncodedVariant(v).items[t]
        {
          if cs[j].Some? {
            var m := QObjectToVariantMap(cs[j], DefaultIgnored);
            list := list + [VMap(m)];
          } else {
            list := list + [Invalid];
          }
          j := j + 1;
        }
        e := VList(list);
      case VBytes(b) =>
        e := VString(Base64.Encode(b));
      case _ =>
        e := v;
    }
  }

  /** A child object is stored as its own variant map under the default
      ignored list, whatever list the parent was encoded with. */
  lemma ChildEncodedWithDefaults(s: ObjectState, ignored: seq<string>, k: string, c: ObjectState)
    requires k in IncludedNames(s.props, ignored) && k in s.values && s.values[k] == VObject(Some(c))
    ensures VariantMapOf(Some(s), ignored)[k] == VMap(VariantMapOf(Some(c), DefaultIgnored))
    ensures "objectName" !in VariantMapOf(Some(s), ignored)[k].entries
  {
  }

  /** An object list becomes a list of the same length; element `t` is the
      child's variant map, or an invalid variant for a null element. */
  lemma ObjectListEncoding(cs: seq<Option<ObjectState>>, t: nat)
    requires t < |cs|
    ensures EncodedVariant(VObjectList(cs)).VList?
    ensures |EncodedVariant(VObjectList(cs)).items| == |cs|
    ensures cs[t].None? ==> EncodedVariant(VObjectList(cs)).items[t] == Invalid
    ensures cs[t].Some? ==> EncodedVariant(VObjectList(cs)).items[t] == VMap(VariantMapOf(cs[t], DefaultIgnored))
  {
  }

  /** The JSON object that `fromVariantMap` builds from `qobject2variantmap`
      has exactly the readable, non-ignored properties whose value is valid
      as keys, each holding `fromVariant` of the encoded value. */
  lemma VariantMapJsonObject(qt: Qt, o: ObjectState, ignored: seq<string>)
    ensures ObjectFromVariantMap(qt, VariantMapOf(Some(o), ignored)).Keys
         == set k | k in IncludedNames(o.props, ignored) && PropertyValue(o, k) != Invalid
    ensures forall k :: k in ObjectFromVariantMap(qt, VariantMapOf(Some(o), ignored)) ==>
              ObjectFromVariantMap(qt, VariantMapOf(Some(o), ignored))[k]
              == qt.fromVariant(EncodedVariant(PropertyValue(o, k)))
  {
  }
}
