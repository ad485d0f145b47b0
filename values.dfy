/** The values the conversion engine works on: JSON values, Qt variants, and
    the reflected property table of an object (its descriptors and the
    current value of each property). */
module Values {

  datatype Option<T> = None | Some(value: T)

  type byte = x: int | 0 <= x < 256

  /** A JSON value. Numbers are doubles in Qt; here the numeric payload is
      opaque. A JSON object is a key-sorted map, so no key order is modelled. */
  datatype Json =
    | Null
    | Bool(b: bool)
    | Num(n: real)
    | Str(s: string)
    | Arr(items: seq<Json>)
    | Obj(members: map<string, Json>)

  /** The declared type of a property, as far as the decoder tells types
      apart; every other type is known by its type name. */
  datatype TypeTag =
    | JsonObjectType
    | JsonArrayType
    | ByteArrayType
    | StringListType
    | OtherType(typeName: string)

  /** How `QMetaProperty::write` reaches the stored field: no WRITE accessor,
      the plain setter of `Q_PROPERTY_EX`, or the setter of
      `Q_PROPERTY_EX_AUTOSAVE`. */
  datatype Setter = NoSetter | PlainSetter | AutoSaveSetter

  /** One entry of the meta-object's property table. */
  datatype PropertyDescriptor = PropertyDescriptor(
    name: string,
    tag: TypeTag,
    readable: bool,
    setter: Setter)
  {
    predicate Writable() { setter != NoSetter }
  }

  /** A QVariant. `VObject` holds a `QObject*` (None is the null pointer),
      `VObjectList` a `QList<QObject*>`; a child object is held as its own
      property table and values. */
  datatype Variant =
    | Invalid
    | VBool(b: bool)
    | VNumber(n: real)
    | VString(s: string)
    | VBytes(bytes: seq<byte>)
    | VStringList(strings: seq<string>)
    | VList(items: seq<Variant>)
    | VMap(entries: map<string, Variant>)
    | VJsonValue(json: Json)
    | VJsonObject(obj: map<string, Json>)
    | VJsonArray(arr: seq<Json>)
    | VObject(child: Option<ObjectState>)
    | VObjectList(children: seq<Option<ObjectState>>)
    | VOther(typeName: string, payload: string)

  /** A QObject as the reflection sees it: its property table (in index
      order, base-class properties first) and the current value of every
      property, by name. */
  datatype ObjectState = ObjectState(props: seq<PropertyDescriptor>, values: map<string, Variant>)

  /** `object->property(name)`: the stored value, or an invalid variant. */
  function PropertyValue(o: ObjectState, name: string): Variant
  {
    if name in o.values then o.values[name] else Invalid
  }

  /** `QMetaObject::indexOfProperty`: Qt searches the most derived class
      first and each class from its last property backwards, so the result
      is the last index that carries the name. */
  function IndexOfProperty(props: seq<PropertyDescriptor>, name: string): (r: Option<nat>)
    ensures r.Some? ==> r.value < |props| && props[r.value].name == name
    ensures r.Some? ==> forall j :: r.value < j < |props| ==> props[j].name != name
    ensures r.None? <==> forall j :: 0 <= j < |props| ==> props[j].name != name
  {
    if |props| == 0 then None
    else if props[|props| - 1].name == name then Some(|props| - 1)
    else IndexOfProperty(props[..|props| - 1], name)
  }

  /** No two descriptors share a name. */
  predicate UniqueNames(props: seq<PropertyDescriptor>)
  {
    forall i, j :: 0 <= i < j < |props| ==> props[i].name != props[j].name
  }

  lemma IndexOfUniqueName(props: seq<PropertyDescriptor>, i: nat)
    requires UniqueNames(props) && i < |props|
    ensures IndexOfProperty(props, props[i].name) == Some(i)
  {
  }
}
