/** The parts of Qt the engine calls but does not define. The foreign
    conversion rules (`QJsonValue::fromVariant`, `QVariant::canConvert` and
    `convert`) and JSON text printing and parsing (`QJsonDocument`) are
    fields of a `Qt` value, so every result is stated for whatever those
    rules are; the small `QJsonValue` accessors the decoder relies on are
    defined here. */
module QtConversions {
  import opened Values

  /** What `QJsonDocument::fromJson` yields when it reports no error. */
  datatype Document = DocObject(obj: map<string, Json>) | DocArray(arr: seq<Json>)

  datatype ParseResult = Parsed(doc: Document) | ParseError(message: string)

  datatype Qt = Qt(
    /** `QJsonValue::fromVariant`. */
    fromVariant: Variant -> Json,
    /** `QVariant(QJsonValue).canConvert(type)` and the value `convert` gives. */
    canConvert: (Json, TypeTag) -> bool,
    convert: (Json, TypeTag) -> Variant,
    /** The same for a variant that holds a QString. */
    canConvertString: (string, TypeTag) -> bool,
    convertString: (string, TypeTag) -> Variant,
    /** `QJsonDocument(obj).toJson(QJsonDocument::Compact)`. */
    serialize: map<string, Json> -> string,
    /** `QJsonDocument::fromJson` with its parse error. */
    parse: string -> ParseResult)

  /** The compact text of an object parses back to that object. Nothing in
      the model assumes this; results that need it take it as a hypothesis. */
  predicate RoundTrips(qt: Qt, o: map<string, Json>)
  {
    qt.parse(qt.serialize(o)) == Parsed(DocObject(o))
  }

  /** `QJsonValue::toString()`: the string, or "" for any other kind. */
  function ToString(j: Json): string
  {
    if j.Str? then j.s else ""
  }

  /** `QJsonValue::toObject()`: the object, or an empty one. */
  function ToObject(j: Json): map<string, Json>
  {
    if j.Obj? then j.members else map[]
  }

  /** `QJsonValue::toArray()`: the array, or an empty one. */
  function ToArray(j: Json): seq<Json>
  {
    if j.Arr? then j.items else []
  }

  /** `QJsonDocument::object()`: empty when the document holds an array. */
  function DocumentObject(d: Document): map<string, Json>
  {
    match d
    case DocObject(o) => o
    case DocArray(_) => map[]
  }

  /** `QJsonObject::fromVariantMap`: every entry through `fromVariant`. */
  function ObjectFromVariantMap(qt: Qt, m: map<string, Variant>): map<string, Json>
  {
    map k | k in m :: qt.fromVariant(m[k])
  }
}
