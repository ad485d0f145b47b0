# QJsonHelper in Dafny

QJsonHelper is a Qt library that serialises `QObject` models to JSON and back
through Qt's property reflection. This project models its conversion engine
(`QObjectHelper`) and the load-state / auto-save layer (`QJsonHelper` and
the property macros of `qpropertyex.h`), and proves what they do.

Modules follow the source:

- `Values`: JSON values, Qt variants, and an object as the reflection sees
  it: a sequence of property descriptors (name, type, readable, kind of
  setter) and a map from property name to current value. Nested `QObject*`
  children are values inside a variant. `IndexOfProperty` is
  `QMetaObject::indexOfProperty`.
- `Base64`: the Base64 alphabet and encoding of section 4 of RFC 4648, and a
  lenient decoder that skips characters outside the alphabet. Padding and
  leftover bits are dropped. The decoder inverts the encoder.
- `QtConversions`: the parts of Qt the engine calls without defining them.
  `QJsonValue::fromVariant`, `QVariant::canConvert`/`convert`, and compact
  JSON printing and parsing are fields of a `Qt` record. Every result holds
  for whatever those functions are. The `QJsonValue` accessors
  (`toString`, `toObject`, `toArray`) are defined.
- `Encoders`: `qobject2qjsonobject`, `qobject2json` and the recursive
  `qobject2variantmap`. Each loop over the property table is a method
  proved equal to a reference definition.
- `DecodeRules`: the type-directed decode chain of `qjsonobject2qobject` as a
  function, and the merge it performs (`Merged`, `MergedText`), with lemmas
  for each rule and for the merge.
- `Objects`: the class `JsonHelper`, a `QJsonHelper` subclass. It holds the
  property table, the property fields, the `MEMBER`/`PROPERTY` fields, the
  load-finished flag and the auto-save path. It has the getters and the
  setters of the four macros, `json()`, `jsonObject()`, `variantMap()`, the
  member `save` and the `checkModel()` hook. The class `Disk` stands for the
  file system: file contents by path and the paths whose open fails.
- `QObjectHelper`: the imperative decoder `qjsonobject2qobject`, whose loop
  writes each member through the property's setter, and `json2qobject`.
- `QJsonHelper`: member `load`, static `save` and `load`, `fromVariantMap`
  and `fromJsonValue`.

Where descriptions of the library and the code differ, the model follows the
code:

- A failed `load(fpath)` does not set the load-finished flag. Only an open
  that succeeds does, even when the content does not parse.
- `qobject2qjsonobject`, which is behind `json()` and both `save`s, does not
  recurse into child objects. It does not Base64-encode byte arrays either.
  Every value goes through `fromVariant`. Only `qobject2variantmap` does
  both. So a byte array saved to a file is not Base64 text, and loading it
  back decodes it as Base64 (`DecodeRules.ByteArrayJsonTextNotBase64`).
- The decoder never consults an ignored list. It writes `objectName` like
  any other property.
- The decoder writes through the property's setter. So merging into an
  object whose load has finished makes its auto-saving setters save, once
  per changed property. The merge of the first `load` never saves, because
  the flag is set after the merge.
- A name that several descriptors share resolves to the last one, as
  `indexOfProperty` searches.

## Model

| member | source | states |
|---|---|---|
| Values.IndexOfProperty | qobjecthelper.cpp:194-198 | the index found carries the name and no later descriptor does; there is no index exactly when no descriptor carries the name |
| Values.IndexOfUniqueName | qobjecthelper.cpp:194 | when names are unique, looking up a descriptor's name finds that descriptor |
| Base64.Encode | qobjecthelper.cpp:155-157 | the Base64 text has length 4 * ceil(n / 3), a multiple of 4 |
| Base64.Decode | qobjecthelper.cpp:214-217 | `fromBase64` never fails: every 4 alphabet characters give 3 bytes and a trailing group of 2 or 3 gives 1 or 2, so the output has exactly floor(3d / 4) bytes for d alphabet characters, never more than 3/4 of the text's length |
| Base64.DecodeEncode | qobjecthelper.cpp:214-217 | decoding the Base64 text of any byte array gives back exactly those bytes |
| Base64.EncodeExample | qobjecthelper.cpp:157 | bytes 00 FF 10 encode to "AP8Q" and decode back |
| Base64.DigitsExample | qobjecthelper.cpp:214-217 | the decoder reads "AP8Q" as the sextets 0, 15, 60, 16 |
| Base64.SkipAnywhere | qobjecthelper.cpp:213-217 | the decoder is lenient: a character outside the alphabet is skipped wherever it stands, so inserting one never changes the decoded bytes |
| Base64.DecodeSkipsForeignCharacters | qobjecthelper.cpp:213-217 | two instances: "AP8Q!" and "A!P8Q" both decode to 00 FF 10 |
| Base64.DecodeMalformedIsEmpty | qobjecthelper.cpp:219-221 | "!!!!" and "A" decode to no bytes, so they are non-empty strings that decode to nothing |
| Encoders.VariantMapJsonObject | qjsonhelper.cpp:72 | the JSON object `fromVariantMap` builds from `qobject2variantmap` has as keys exactly the readable, non-ignored properties whose value is valid, each holding `fromVariant` of the encoded value |
| Encoders.QObjectToQJsonObject | qobjecthelper.cpp:100-117 | the keys are exactly the names of the readable properties not in the ignored list; each value is `fromVariant` of the property's current value |
| Encoders.EncodingDependsOnlyOnEnumerated | qobjecthelper.cpp:174-180 | two states with the same table that agree on the emitted properties give the same JSON object and the same text, so an unchanged object encodes to identical text |
| Encoders.ObjectNameIgnoredByDefault | qobjecthelper.h:18-25 | with the default list `["objectName"]` that name is never a key; with an empty list a readable `objectName` appears |
| Encoders.QObjectToJson | qobjecthelper.cpp:174-180 | `qobject2json` is compact text that, when Qt parses its own output back, is a JSON object whose keys are exactly the readable, non-ignored property names, each holding `fromVariant` of the current value; with the default list it never holds `objectName` (identical states give identical text: `Encoders.EncodingDependsOnlyOnEnumerated`) |
| Encoders.QObjectToVariantMap | qobjecthelper.cpp:119-165 | a null object gives the empty map; every key is a readable, non-ignored property whose value is valid; the result equals the recursive reference definition |
| Encoders.EncodeValue | qobjecthelper.cpp:141-162 | one valid value is stored as the reference definition says: child as its own map, object list as a list, bytes as Base64, the rest unchanged |
| Encoders.ChildEncodedWithDefaults | qobjecthelper.cpp:142-145 | a child object becomes its own variant map under the default ignored list, whatever list the parent used, so it never holds `objectName` |
| Encoders.ObjectListEncoding | qobjecthelper.cpp:146-153 | an object list becomes a list of the same length; a null element becomes an invalid variant, another element its variant map |
| DecodeRules.DecodeAction | qobjecthelper.cpp:199-247 | the decode chain is rules 1-8 in source order, first match wins: QJsonObject, QJsonArray, QByteArray (Base64), QStringList given an array, generic conversion, "QVariant" slot, conversion from the string, else keep; the property is kept exactly when its type is none of the fixed slots (or a QStringList slot not given an array) and both conversions fail; the warning is raised exactly for a QByteArray slot given a non-empty string that decodes to no bytes |
| DecodeRules.WriteForWritableOnly | qobjecthelper.cpp:194-247 | `WriteFor` writes a member exactly when it is present, the descriptor `indexOfProperty` finds for its name is writable and the chain writes; a name no descriptor carries is never written |
| DecodeRules.MergedKeys | qobjecthelper.cpp:189-249 | `Merged`, the values after the loop, never drops a name and adds only names of the JSON object; a name takes the member's write whenever `WriteFor` has one and keeps its old value otherwise |
| DecodeRules.MergedText | qobjecthelper.cpp:258-267 | `json2qobject` parses first: a parse error leaves every value unchanged, a document holding an array merges the empty object and so changes nothing, and no name is ever dropped |
| DecodeRules.FixedSlotsAlwaysWritten | qobjecthelper.cpp:202-238 | QJsonObject, QJsonArray, QByteArray and "QVariant" slots are written whatever the JSON value |
| DecodeRules.KeepOnlyAfterFailedConversions | qobjecthelper.cpp:234-247 | a property is left unchanged only when both conversions fail and its type is none of the specially handled ones |
| DecodeRules.JsonSlotsGivenOtherKinds | qobjecthelper.cpp:202-207 | a QJsonObject slot takes an object's members and gets the empty object from any other kind; a QJsonArray slot likewise gets the empty array |
| DecodeRules.StringListElementwise | qobjecthelper.cpp:224-233 | a QStringList slot given an array gets one string per element, the element's string or "" for a non-string |
| DecodeRules.ConversionBeforeRawValue | qobjecthelper.cpp:234-239 | for a "QVariant" slot the generic conversion wins; the raw JSON value is stored only when it fails |
| DecodeRules.ByteArraySlotRoundTrip | qobjecthelper.cpp:208-223 | a QByteArray slot given the Base64 text of some bytes gets exactly those bytes, without the warning |
| DecodeRules.ByteArraySlotGivenNonString | qobjecthelper.cpp:208-223 | a QByteArray slot given a non-string is cleared, without the warning |
| DecodeRules.ByteArrayWarning | qobjecthelper.cpp:219-223 | two instances of the warning condition: "!!!!" decodes to nothing, warns and still overwrites the property with no bytes; "" writes no bytes without the warning |
| DecodeRules.ByteArrayJsonTextNotBase64 | qobjecthelper.cpp:113-114 | when `fromVariant` stores the byte "A" as its text, the decoder turns it into no bytes and warns |
| DecodeRules.MergeKeepsAbsentNames | qobjecthelper.cpp:189-198 | a name absent from the JSON object keeps its value, and a name with no value stays absent |
| DecodeRules.MergeSkipsUnknownKeys | qobjecthelper.cpp:194-198 | a member that names no property is skipped |
| DecodeRules.MergeWritesMatchedKeys | qobjecthelper.cpp:194-247 | a member naming the descriptor `indexOfProperty` finds (the last one with that name, so shadowed duplicates are covered) stores the chain's value when that descriptor is writable and the chain writes, whatever any ignored list says; a read-only descriptor keeps its value |
| DecodeRules.MergeEmpty | qobjecthelper.cpp:193 | merging the empty object changes nothing |
| DecodeRules.MergeIdempotent | qobjecthelper.cpp:189-249 | merging the same object twice is the same as merging it once |
| DecodeRules.ParseErrorWritesNothing | qobjecthelper.cpp:258-267 | when parsing fails no property changes |
| DecodeRules.ByteArrayVariantMapRoundTrip | qobjecthelper.cpp:154-157 | a byte-array property of `qobject2variantmap` that is the descriptor `indexOfProperty` finds for its name, merged back through `fromVariantMap`, comes back as the same bytes |
| DecodeRules.SaveLoadRoundTrip | qobjecthelper.cpp:174-180 | for the descriptor `indexOfProperty` finds for its name: after saving and loading the text, an emitted writable property comes back when the chain inverts `fromVariant` on its value; a name the encoder emits for no descriptor (ignored, or unreadable in every descriptor carrying it) keeps the loading object's value |
| QObjectHelper.ToStringList | qobjecthelper.cpp:226-231 | the loop builds the elementwise `toString()` of the array |
| QObjectHelper.DecodeMember | qobjecthelper.cpp:194-247 | one member: the property's value becomes the chain's result if it names a writable property and the chain writes, and is unchanged otherwise; only the save path can change on disk, and only for a loaded object with an auto-saving property |
| QObjectHelper.QJsonObjectToQObject | qobjecthelper.cpp:189-249 | the values become exactly `Merged` of the old values and the JSON object, in whatever order the keys are visited; no file except the save path changes, and none at all before the load has finished |
| QObjectHelper.Json2QObject | qobjecthelper.cpp:258-267 | the values become `MergedText` of the text; on a parse error neither values nor disk change |
| Objects.JsonHelper.constructor | qjsonhelper.cpp:7-10 | a new object is not loaded, `checkModel()` has not run, and `MEMBER` fields hold their initial values |
| Objects.JsonHelper.JsonObject | qjsonhelper.h:19-21 | `jsonObject()` never holds `objectName` |
| Objects.JsonHelper.Json | qjsonhelper.h:15-17 | `json()` is the compact text of `jsonObject()` |
| Objects.JsonHelper.VariantMap | qjsonhelper.h:23-25 | `variantMap()` never holds `objectName` |
| Objects.JsonHelper.SetPlain | qpropertyex.h:8-9 | the setter assigns unconditionally and the getter then returns the value set |
| Objects.JsonHelper.SetAutoSave | qpropertyex.h:19-27 | an equal value changes nothing and saves nothing; a different value is stored; it is saved to the save path, once and after the store, exactly when the load has finished |
| Objects.JsonHelper.SetField | qpropertyex.h:31-43 | `MEMBER`/`PROPERTY` setters change only their own field, which no encoder or decoder sees |
| Objects.JsonHelper.WriteProperty | qobjecthelper.cpp:199-204 | writing property i stores the value when it has a setter and is a no-op otherwise; an auto-saving setter of a loaded object given a different value saves `json()` of the new state once to the save path; in every other case the disk is untouched, and no other file ever changes |
| Objects.JsonHelper.Save | qjsonhelper.cpp:12-24 | returns whether the truncating open succeeded; on success the file holds exactly `json()`; the load flag is untouched |
| Objects.JsonHelper.CheckModel | qjsonhelper.h:47 | the default hook changes nothing in the object |
| QJsonHelper.Load | qjsonhelper.cpp:54-68 | returns whether the file opened; the flag becomes set exactly when it opened and never unset; `checkModel()` runs once either way; the values become the merge of the file's text; the first load never saves |
| QJsonHelper.SaveObject | qjsonhelper.cpp:26-38 | returns whether the open succeeded; the file holds `qobject2json(object, ignoredProperties)`, which with the default list is `json()` |
| QJsonHelper.LoadObject | qjsonhelper.cpp:40-52 | returns whether the file opened; the values become the merge of its text; no load flag changes and no `checkModel()` runs |
| QJsonHelper.FromVariantMap | qjsonhelper.cpp:70-78 | the values become the merge of the compact text of the JSON object built from the map, and the plain merge of that object when the text parses back to it |
| QJsonHelper.FromJsonValue | qjsonhelper.cpp:80-85 | the values become the merge of `toObject()` of the value; a non-object changes no property |

## Left out

- Qt reflection: the meta-object is a fixed descriptor table. Writing a
  property with no setter is a no-op. Type identity is reduced to the tags
  the decoder tests plus a type name.
- `QJsonValue::fromVariant`, `QVariant::canConvert`/`convert` and JSON text
  printing and parsing are not defined. Every result is stated for any
  behaviour of them. `parse(serialize(o)) == o` appears only as an
  explicit hypothesis (`QtConversions.RoundTrips`).
- Base64.Decode: Qt's exact treatment of malformed input is not modelled.
  The model skips characters outside the alphabet and drops leftover bits.
  Strict rejection is not claimed.
- File I/O: `QFile` is a map from path to text plus a set of paths whose
  open fails. Text-mode line endings, UTF-8 encoding and short writes are
  not modelled, nor the `QString` to `std::string` conversion in
  `json2qobject` (an embedded NUL character would cut the text short).
- `writeToFile` is not modelled, as it is pure I/O. It opens ReadWrite
  without Truncate, so a shorter text leaves stale bytes at the end of the
  file.
- `operator<<` and all `qDebug`/`qWarning` output are diagnostics and are
  left out. The Base64 warning condition is part of `DecodeRules.Action`.
- Key order: JSON objects and variant maps are key-sorted maps. The
  decoder visits keys in an order the model does not fix. The final values
  do not depend on it, but with auto-saving setters on a loaded object the
  order of the intermediate saves does. The model states the final disk
  only outside the save path.
- Child objects are values (a tree). Cycles and sharing between `QObject*`
  children are not modelled, and the source would not terminate on a cycle.
- `QObjectHelperPrivate` and the helper's constructor and destructor have
  no behaviour to verify.
- Subclasses that override the virtual `json2qobject` or `checkModel`
  hooks are not modelled. `QJsonHelper.Load` uses the default forwarder and
  counts `checkModel()` calls.
- Getters and `isLoadFinish()` are plain reads (`JsonHelper.Get`,
  `JsonHelper.IsLoadFinish`).
- Field initial values: the fields of `Q_PROPERTY_EX`,
  `Q_PROPERTY_EX_AUTOSAVE` and `PROPERTY` have no initialiser in the source.
  The model starts them at the values the caller passes to the
  `JsonHelper` constructor (`values` for the reflected properties, `init`
  for the plain fields).
- Null objects: `qobject2qjsonobject`, `qobject2json` and
  `qjsonobject2qobject` use the object pointer without checking it. The
  model's objects are never null, so that crash is not modelled. Only
  `qobject2variantmap` takes an optional object, as it checks for null.
- `QtConversions.ObjectFromVariantMap` is the model's definition of
  `QJsonObject::fromVariantMap`: every entry goes through the `fromVariant`
  stand-in. It is a stand-in like the other Qt conversions.
- Latin-1 conversion of property names is not modelled; names are strings.
- `value.canConvert<QList<QObject*>>()` is modelled as holding exactly for
  object-list variants.
- Numbers are opaque reals, and no floating-point behaviour is modelled.
