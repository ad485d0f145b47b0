/** What `QObjectHelper::qjsonobject2qobject` does with each JSON member: the
    fixed, type-directed chain of decode rules, and the merge it performs on
    an object's property values. The imperative loop that carries this out
    is `QObjectHelper.QJsonObjectToQObject`. */
module DecodeRules {
  import opened Values
  import opened QtConversions
  import Base64
  import Encoders

  /** The outcome of the chain for one member: write a value (noting whether
      the Base64 warning is logged), or leave the property as it is. */
  datatype Action = Write(value: Variant, warned: bool) | Keep

  /** A property whose declared type name is "QVariant". */
  predicate IsVariantSlot(t: TypeTag)
  {
    t == OtherType("QVariant")
  }

  /** The elementwise `toString()` of a JSON array. */
  function StringsOf(items: seq<Json>): seq<string>
  {
    seq(|items|, i requires 0 <= i < |items| => ToString(items[i]))
  }

  /** The decode chain, first matching rule wins:
      1. a QJsonObject slot gets `toObject()`;
      2. a QJsonArray slot gets `toArray()`;
      3. a QByteArray slot gets the Base64 decoding of `toString()`, with a
         warning when a non-empty string decodes to nothing;
      4. a QStringList slot given an array gets the elementwise `toString()`;
      5. a value Qt can convert to the declared type is converted;
      6. a slot declared "QVariant" gets the JSON value itself;
      7. a string is converted from its text when Qt can;
      8. otherwise the property is left unchanged. */
  function DecodeAction(qt: Qt, p: PropertyDescriptor, j: Json): (r: Action)
    ensures r == Keep <==>
              ((p.tag.OtherType? && !IsVariantSlot(p.tag)) || (p.tag == StringListType && !j.Arr?))
              && !qt.canConvert(j, p.tag) && !(j.Str? && qt.canConvertString(j.s, p.tag))
    ensures r.Write? && r.warned <==> p.tag == ByteArrayType && j.Str? && j.s != [] && Base64.Decode(j.s) == []
  {
    if p.tag == JsonObjectType then Write(VJsonObject(ToObject(j)), false)
    else if p.tag == JsonArrayType then Write(VJsonArray(ToArray(j)), false)
    else if p.tag == ByteArrayType then
      var s := ToString(j);
      var raw := Base64.Decode(s);
      Write(VBytes(raw), |raw| == 0 && |s| != 0)
    else if p.tag == StringListType && j.Arr? then Write(VStringList(StringsOf(j.items)), false)
    else if qt.canConvert(j, p.tag) then Write(qt.convert(j, p.tag), false)
    else if IsVariantSlot(p.tag) then Write(VJsonValue(j), false)
    else if j.Str? && qt.canConvertString(j.s, p.tag) then Write(qt.convertString(j.s, p.tag), false)
    else Keep
  }

  /** The value the merge stores under name `k`, if any: the member must be
      present, name a property, that property must be writable, and the
      chain must produce a value. The ignored list plays no part. */
  function WriteFor(qt: Qt, props: seq<PropertyDescriptor>, j: map<string, Json>, k: string): Option<Variant>
  {
    if k !in j then None
    else match IndexOfProperty(props, k)
      case None => None
      case Some(i) =>
        if !props[i].Writable() then None
        else match DecodeAction(qt, props[i], j[k])
          case Write(v, _) => Some(v)
          case Keep => None
  }

  /** The property values after `qjsonobject2qobject(j, object)`. */
  function Merged(qt: Qt, props: seq<PropertyDescriptor>, values: map<string, Variant>, j: map<string, Json>)
    : (r: map<string, Variant>)
  {
    map k | k in values.Keys + (set n | n in j && WriteFor(qt, props, j, n).Some?) ::
      if WriteFor(qt, props, j, k).Some? then WriteFor(qt, props, j, k).value else values[k]
  }

  /** The property values after `json2qobject(text, object)`: a parse error
      leaves every property as it was; a document holding an array merges
      the empty object. */
  function MergedText(qt: Qt, props: seq<PropertyDescriptor>, values: map<string, Variant>, text: string)
    : (r: map<string, Variant>)
    ensures qt.parse(text).ParseError? ==> r == values
    ensures values.Keys <= r.Keys
    ensures qt.parse(text).Parsed? && qt.parse(text).doc.DocArray? ==> r == values
  {
    match qt.parse(text)
    case Parsed(doc) => Merged(qt, props, values, DocumentObject(doc))
    case ParseError(_) => values
  }

  // ---------------------------------------------------------------------
  // The decode chain

  /** Slots of type QJsonObject, QJsonArray, QByteArray or "QVariant" are
      always written, whatever the JSON value is. */
  lemma FixedSlotsAlwaysWritten(qt: Qt, p: PropertyDescriptor, j: Json)
    requires p.tag in {JsonObjectType, JsonArrayType, ByteArrayType} || IsVariantSlot(p.tag)
    ensures DecodeAction(qt, p, j).Write?
  {
  }

  /** A property is left unchanged only when neither conversion Qt offers
      succeeds and its type is none of the specially handled ones. */
  lemma KeepOnlyAfterFailedConversions(qt: Qt, p: PropertyDescriptor, j: Json)
    requires DecodeAction(qt, p, j) == Keep
    ensures !qt.canConvert(j, p.tag)
    ensures !(j.Str? && qt.canConvertString(j.s, p.tag))
    ensures p.tag.OtherType? || (p.tag == StringListType && !j.Arr?)
    ensures !IsVariantSlot(p.tag)
  {
  }

  /** A QJsonObject slot given anything but an object is overwritten with
      an empty object; a QJsonArray slot likewise with an empty array. */
  lemma JsonSlotsGivenOtherKinds(qt: Qt, p: PropertyDescriptor, j: Json)
    ensures p.tag == JsonObjectType && !j.Obj? ==> DecodeAction(qt, p, j) == Write(VJsonObject(map[]), false)
    ensures p.tag == JsonObjectType && j.Obj? ==> DecodeAction(qt, p, j) == Write(VJsonObject(j.members), false)
    ensures p.tag == JsonArrayType && !j.Arr? ==> DecodeAction(qt, p, j) == Write(VJsonArray([]), false)
  {
  }

  /** A QStringList slot given an array gets a list of the same length whose
      elements are the array's strings, "" for every non-string element. */
  lemma StringListElementwise(qt: Qt, p: PropertyDescriptor, items: seq<Json>, i: nat)
    requires p.tag == StringListType && i < |items|
    ensures DecodeAction(qt, p, Arr(items)).Write?
    ensures DecodeAction(qt, p, Arr(items)).value.VStringList?
    ensures |DecodeAction(qt, p, Arr(items)).value.strings| == |items|
    ensures DecodeAction(qt, p, Arr(items)).value.strings[i] == if items[i].Str? then items[i].s else ""
  {
  }

  /** For a "QVariant" slot the generic conversion comes first: the raw JSON
      value is stored only when Qt cannot convert it. */
  lemma ConversionBeforeRawValue(qt: Qt, p: PropertyDescriptor, j: Json)
    requires IsVariantSlot(p.tag)
    ensures qt.canConvert(j, p.tag) ==> DecodeAction(qt, p, j) == Write(qt.convert(j, p.tag), false)
    ensures !qt.canConvert(j, p.tag) ==> DecodeAction(qt, p, j) == Write(VJsonValue(j), false)
  {
  }

  /** The Base64 text of any byte array decodes, in a QByteArray slot, to
      exactly those bytes and without a warning. */
  lemma ByteArraySlotRoundTrip(qt: Qt, p: PropertyDescriptor, b: seq<byte>)
    requires p.tag == ByteArrayType
    ensures DecodeAction(qt, p, Str(Base64.Encode(b))) == Write(VBytes(b), false)
  {
    Base64.DecodeEncode(b);
  }

  /** A QByteArray slot given a non-string is cleared, with no warning,
      because `toString()` of a non-string is empty. */
  lemma ByteArraySlotGivenNonString(qt: Qt, p: PropertyDescriptor, j: Json)
    requires p.tag == ByteArrayType && !j.Str?
    ensures DecodeAction(qt, p, j) == Write(VBytes([]), false)
  {
  }

  /** Two instances of the warning condition of `DecodeAction`: "!!!!" is a
      non-empty string that decodes to no bytes, so it warns and the property
      is still overwritten; the empty string does not warn. */
  lemma ByteArrayWarning(qt: Qt, p: PropertyDescriptor)
    requires p.tag == ByteArrayType
    ensures DecodeAction(qt, p, Str("!!!!")) == Write(VBytes([]), true)
    ensures DecodeAction(qt, p, Str("")) == Write(VBytes([]), false)
  {
    Base64.DecodeMalformedIsEmpty();
  }

  /** Only the variant-map encoder writes byte arrays as Base64; the JSON
      encoder behind `json()` and `save` passes them to `fromVariant`, which
      Qt turns into the bytes' own text. Read back, that text is decoded as
      Base64: the one byte "A" comes back as no bytes at all, with the
      warning. */
  lemma ByteArrayJsonTextNotBase64(qt: Qt, p: PropertyDescriptor)
    requires p.tag == ByteArrayType
    requires qt.fromVariant(VBytes([65])) == Str("A")
    ensures DecodeAction(qt, p, qt.fromVariant(VBytes([65]))) == Write(VBytes([]), true)
  {
    Base64.DecodeMalformedIsEmpty();
  }

  // ---------------------------------------------------------------------
  // The merge

  /** A member is written exactly when it is present, the descriptor
      `indexOfProperty` finds for it is writable and the chain writes; a name
      no descriptor carries never is. */
  lemma WriteForWritableOnly(qt: Qt, props: seq<PropertyDescriptor>, j: map<string, Json>, k: string)
    ensures WriteFor(qt, props, j, k).Some? <==>
              k in j && IndexOfProperty(props, k).Some? && props[IndexOfProperty(props, k).value].Writable()
              && DecodeAction(qt, props[IndexOfProperty(props, k).value], j[k]).Write?
    ensures (forall i :: 0 <= i < |props| ==> props[i].name != k) ==> WriteFor(qt, props, j, k).None?
  {
  }

  /** The merge never drops a name and adds only names the JSON object
      carries; a name takes the member's write when there is one and keeps
      its value otherwise. */
  lemma MergedKeys(qt: Qt, props: seq<PropertyDescriptor>, values: map<string, Variant>, j: map<string, Json>)
    ensures values.Keys <= Merged(qt, props, values, j).Keys <= values.Keys + j.Keys
    ensures forall n :: n in values && WriteFor(qt, props, j, n).None? ==> Merged(qt, props, values, j)[n] == values[n]
    ensures forall n :: WriteFor(qt, props, j, n).Some? ==> Merged(qt, props, values, j)[n] == WriteFor(qt, props, j, n).value
  {
  }

  /** Merge, not replace: a name absent from the JSON object keeps its value
      (and an absent property stays absent). */
  lemma MergeKeepsAbsentNames(qt: Qt, props: seq<PropertyDescriptor>, values: map<string, Variant>,
                              j: map<string, Json>, k: string)
    requires k !in j
    ensures k in Merged(qt, props, values, j) <==> k in values
    ensures k in values ==> Merged(qt, props, values, j)[k] == values[k]
  {
  }

  /** A member that names no property is skipped. */
  lemma MergeSkipsUnknownKeys(qt: Qt, props: seq<PropertyDescriptor>, values: map<string, Variant>,
                              j: map<string, Json>, k: string)
    requires k in j && forall i :: 0 <= i < |props| ==> props[i].name != k
    ensures k in Merged(qt, props, values, j) <==> k in values
    ensures k in values ==> Merged(qt, props, values, j)[k] == values[k]
  {
  }

  /** A member naming the descriptor the lookup finds (the last one with
      that name) is stored when that property is writable and the chain
      produces a value, whether or not the name is on any ignored list; a
      read-only property keeps its value. */
  lemma MergeWritesMatchedKeys(qt: Qt, props: seq<PropertyDescriptor>, values: map<string, Variant>,
                               j: map<string, Json>, i: nat)
    requires i < |props| && IndexOfProperty(props, props[i].name) == Some(i) && props[i].name in j
    ensures props[i].Writable() && DecodeAction(qt, props[i], j[props[i].name]).Write?
            ==> Merged(qt, props, values, j)[props[i].name] == DecodeAction(qt, props[i], j[props[i].name]).value
    ensures !props[i].Writable() && props[i].name in values
            ==> Merged(qt, props, values, j)[props[i].name] == values[props[i].name]
  {
  }

  /** Merging the empty object changes nothing. */
  lemma MergeEmpty(qt: Qt, props: seq<PropertyDescriptor>, values: map<string, Variant>)
    ensures Merged(qt, props, values, map[]) == values
  {
  }

  /** What is written depends only on the JSON, never on the current values,
      so merging the same object twice is the same as merging it once. */
  lemma MergeIdempotent(qt: Qt, props: seq<PropertyDescriptor>, values: map<string, Variant>, j: map<string, Json>)
    ensures Merged(qt, props, Merged(qt, props, values, j), j) == Merged(qt, props, values, j)
  {
    var once := Merged(qt, props, values, j);
    var twice := Merged(qt, props, once, j);
    assert twice.Keys == once.Keys;
    forall k | k in twice ensures twice[k] == once[k] {
    }
  }

  /** `json2qobject` is all-or-nothing at the parse stage: a parse error
      changes no property. */
  lemma ParseErrorWritesNothing(qt: Qt, props: seq<PropertyDescriptor>, values: map<string, Variant>, text: string)
    requires qt.parse(text).ParseError?
    ensures MergedText(qt, props, values, text) == values
  {
  }

  /** A byte array survives `qobject2variantmap` followed by the merge of the
      JSON object built from that map: the map holds its Base64 text, and
      the decoder turns that text back into the same bytes. The hypothesis
      on `fromVariant` is what Qt does with a string variant. */
  lemma ByteArrayVariantMapRoundTrip(qt: Qt, o: ObjectState, ignored: seq<string>, values: map<string, Variant>,
                                     i: nat, b: seq<byte>, m: map<string, Variant>)
    requires i < |o.props| && IndexOfProperty(o.props, o.props[i].name) == Some(i)
    requires o.props[i].tag == ByteArrayType && o.props[i].readable && o.props[i].Writable()
    requires o.props[i].name !in ignored && o.props[i].name in o.values && o.values[o.props[i].name] == VBytes(b)
    requires m == Encoders.VariantMapOf(Some(o), ignored)
    requires qt.fromVariant(VString(Base64.Encode(b))) == Str(Base64.Encode(b))
    ensures Merged(qt, o.props, values, ObjectFromVariantMap(qt, m))[o.props[i].name] == VBytes(b)
  {
    var k := o.props[i].name;
    assert k in Encoders.IncludedNames(o.props, ignored) by {
      assert Encoders.Enumerated(o.props[i], ignored);
    }
    assert k in m && m[k] == VString(Base64.Encode(b));
    ByteArraySlotRoundTrip(qt, o.props[i], b);
    MergeWritesMatchedKeys(qt, o.props, values, ObjectFromVariantMap(qt, m), i);
  }

  /** `save` followed by `load` into an object with the same property table:
      a property the encoder emitted comes back whenever the decode chain
      turns its JSON form back into the same value, and a property the
      encoder left out (ignored or unreadable) keeps the loading object's
      value. The hypothesis on the compact text is what `QJsonDocument`
      does for well-formed objects. */
  lemma SaveLoadRoundTrip(qt: Qt, o: ObjectState, ignored: seq<string>, values: map<string, Variant>, i: nat)
    requires i < |o.props| && IndexOfProperty(o.props, o.props[i].name) == Some(i)
    requires RoundTrips(qt, Encoders.JsonObjectOf(qt, o, ignored))
    ensures Encoders.Enumerated(o.props[i], ignored) && o.props[i].Writable()
            && DecodeAction(qt, o.props[i], qt.fromVariant(PropertyValue(o, o.props[i].name)))
               == Write(PropertyValue(o, o.props[i].name), false)
            ==> MergedText(qt, o.props, values, Encoders.QObjectToJson(qt, o, ignored))[o.props[i].name]
                == PropertyValue(o, o.props[i].name)
    ensures o.props[i].name !in Encoders.IncludedNames(o.props, ignored) && o.props[i].name in values
            ==> MergedText(qt, o.props, values, Encoders.QObjectToJson(qt, o, ignored))[o.props[i].name]
                == values[o.props[i].name]
  {
    var k := o.props[i].name;
    var j := Encoders.JsonObjectOf(qt, o, ignored);
    if Encoders.Enumerated(o.props[i], ignored) {
      assert k in Encoders.IncludedNames(o.props, ignored);
      MergeWritesMatchedKeys(qt, o.props, values, j, i);
    }
    if k !in Encoders.IncludedNames(o.props, ignored) && k in values {
      MergeKeepsAbsentNames(qt, o.props, values, j, k);
    }
  }
}
