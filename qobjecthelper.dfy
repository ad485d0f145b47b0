/** The decoders of `QObjectHelper`: `qjsonobject2qobject`, which walks the
    members of a JSON object and writes the matching properties through
    their setters, and `json2qobject`, which parses text first. */
module QObjectHelper {
  import opened Values
  import opened QtConversions
  import opened DecodeRules
  import Base64
  import opened Objects

  /** The members of `j` whose names are in `done`. */
  function Restrict(j: map<string, Json>, done: set<string>): map<string, Json>
  {
    map n | n in j && n in done :: j[n]
  }

  /** Restricting to every key, or to none. */
  lemma RestrictBounds(j: map<string, Json>)
    ensures Restrict(j, j.Keys) == j && Restrict(j, {}) == map[]
  {
  }

  /** Restricting the JSON object to `done` restricts the writes to `done`. */
  lemma WriteForRestrict(qt: Qt, props: seq<PropertyDescriptor>, j: map<string, Json>, done: set<string>, n: string)
    ensures WriteFor(qt, props, Restrict(j, done), n) == if n in done then WriteFor(qt, props, j, n) else None
  {
    if n in j && n in done {
      assert n in Restrict(j, done) && Restrict(j, done)[n] == j[n];
    } else {
      assert n !in Restrict(j, done);
    }
  }

  /** The merge at one name. */
  lemma MergedAt(qt: Qt, props: seq<PropertyDescriptor>, values: map<string, Variant>,
                 j: map<string, Json>, n: string)
    ensures n in Merged(qt, props, values, j) <==> n in values || WriteFor(qt, props, j, n).Some?
    ensures n in Merged(qt, props, values, j) ==>
              Merged(qt, props, values, j)[n]
              == if WriteFor(qt, props, j, n).Some? then WriteFor(qt, props, j, n).value else values[n]
  {
  }

  /** One more member processed: the merge gains that member's write. */
  lemma MergeStep(qt: Qt, props: seq<PropertyDescriptor>, values: map<string, Variant>,
                  j: map<string, Json>, done: set<string>, k: string)
    ensures Merged(qt, props, values, Restrict(j, done + {k}))
         == if WriteFor(qt, props, j, k).Some?
            then Merged(qt, props, values, Restrict(j, done))[k := WriteFor(qt, props, j, k).value]
            else Merged(qt, props, values, Restrict(j, done))
  {
    var a := Merged(qt, props, values, Restrict(j, done + {k}));
    var b := Merged(qt, props, values, Restrict(j, done));
    var c := if WriteFor(qt, props, j, k).Some? then b[k := WriteFor(qt, props, j, k).value] else b;
    forall n ensures n in a <==> n in c {
      WriteForRestrict(qt, props, j, done + {k}, n);
      WriteForRestrict(qt, props, j, done, n);
      MergedAt(qt, props, values, Restrict(j, done + {k}), n);
      MergedAt(qt, props, values, Restrict(j, done), n);
    }
    forall n | n in a ensures a[n] == c[n] {
      WriteForRestrict(qt, props, j, done + {k}, n);
      WriteForRestrict(qt, props, j, done, n);
      MergedAt(qt, props, values, Restrict(j, done + {k}), n);
      MergedAt(qt, props, values, Restrict(j, done), n);
    }
  }

  /** The elementwise `toString()` loop of the QStringList rule. */
  method ToStringList(ja: seq<Json>) returns (sl: seq<string>)
    ensures sl == StringsOf(ja)
  {
    sl := [];
    var i := 0;
    while i < |ja|
      invariant 0 <= i <= |ja|
      invariant sl == StringsOf(ja[..i])
    {
      assert ja[..i + 1] == ja[..i] + [ja[i]];
      sl := sl + [ToString(ja[i])];
      i := i + 1;
    }
    assert ja[..i] == ja;
  }

  /** One pass of the loop of `qjsonobject2qobject`: look up the property
      named `k`, run the decode chain on the member's value and call the
      property's setter with the result. */
  method DecodeMember(jsonobj: map<string, Json>, k: string, obj: JsonHelper)
    requires k in jsonobj && obj.Valid()
    modifies obj`values, obj.disk
    ensures obj.Valid()
    ensures obj.values == if WriteFor(obj.qt, obj.props, jsonobj, k).Some?
                          then old(obj.values)[k := WriteFor(obj.qt, obj.props, jsonobj, k).value]
                          else old(obj.values)
    ensures !obj.loadFinish || !obj.HasAutoSave()
            ==> obj.disk.files == old(obj.disk.files) && obj.disk.writeOpens == old(obj.disk.writeOpens)
    ensures obj.disk.files - {obj.filePath} == old(obj.disk.files) - {obj.filePath}
  {
    var qt, props := obj.qt, obj.props;
    var pIdx := IndexOfProperty(props, k);
    if pIdx.None? {
      return;
    }
    var i := pIdx.value;
    var p := props[i];
    var value := jsonobj[k];
    if p.tag == JsonObjectType {
      obj.WriteProperty(i, VJsonObject(ToObject(value)));
    } else if p.tag == JsonArrayType {
      obj.WriteProperty(i, VJsonArray(ToArray(value)));
    } else if p.tag == ByteArrayType {
      var s := ToString(value);
      var raw := Base64.Decode(s);
      // a non-empty string that decodes to nothing is only logged
      obj.WriteProperty(i, VBytes(raw));
    } else if p.tag == StringListType && value.Arr? {
      var sl := ToStringList(value.items);
      obj.WriteProperty(i, VStringList(sl));
    } else if qt.canConvert(value, p.tag) {
      obj.WriteProperty(i, qt.convert(value, p.tag));
    } else if IsVariantSlot(p.tag) {
      obj.WriteProperty(i, VJsonValue(value));
    } else if value.Str? {
      if qt.canConvertString(value.s, p.tag) {
        obj.WriteProperty(i, qt.convertString(value.s, p.tag));
      }
    }
  }

  /** `qjsonobject2qobject(jsonobj, obj)`: every member that names a property
      is decoded and written through the property's setter, so the values
      end up as `Merged` says whatever order the members are visited in. Only
      auto-saving setters of an object that has finished loading touch the
      disk, and only at the object's save path. */
  method QJsonObjectToQObject(jsonobj: map<string, Json>, obj: JsonHelper)
    requires obj.Valid()
    modifies obj`values, obj.disk
    ensures obj.Valid()
    ensures obj.values == Merged(obj.qt, obj.props, old(obj.values), jsonobj)
    ensures !obj.loadFinish || !obj.HasAutoSave()
            ==> obj.disk.files == old(obj.disk.files) && obj.disk.writeOpens == old(obj.disk.writeOpens)
    ensures obj.disk.files - {obj.filePath} == old(obj.disk.files) - {obj.filePath}
  {
    var qt, props := obj.qt, obj.props;
    ghost var v0 := obj.values;
    var done: set<string> := {};
    RestrictBounds(jsonobj);
    MergeEmpty(qt, props, obj.values);
    while done != jsonobj.Keys
      invariant done <= jsonobj.Keys
      invariant obj.Valid()
      invariant obj.values == Merged(qt, props, v0, Restrict(jsonobj, done))
      invariant !obj.loadFinish || !obj.HasAutoSave()
                ==> obj.disk.files == old(obj.disk.files) && obj.disk.writeOpens == old(obj.disk.writeOpens)
      invariant obj.disk.files - {obj.filePath} == old(obj.disk.files) - {obj.filePath}
      decreases |jsonobj.Keys - done|
    {
      var k :| k in jsonobj.Keys - done;
      DecodeMember(jsonobj, k, obj);
      MergeStep(qt, props, v0, jsonobj, done, k);
      done := done + {k};
    }
  }

  /** `json2qobject(json, obj)`: parse, then merge the document's object;
      a parse error is only logged and no property is written. */
  method Json2QObject(json: string, obj: JsonHelper)
    requires obj.Valid()
    modifies obj`values, obj.disk
    ensures obj.Valid()
    ensures obj.values == MergedText(obj.qt, obj.props, old(obj.values), json)
    ensures obj.qt.parse(json).ParseError? ==>
              obj.values == old(obj.values)
              && obj.disk.files == old(obj.disk.files) && obj.disk.writeOpens == old(obj.disk.writeOpens)
    ensures !obj.loadFinish || !obj.HasAutoSave() ==>
              obj.disk.files == old(obj.disk.files) && obj.disk.writeOpens == old(obj.disk.writeOpens)
    ensures obj.disk.files - {obj.filePath} == old(obj.disk.files) - {obj.filePath}
  {
    match obj.qt.parse(json) {
      case Parsed(doc) =>
        QJsonObjectToQObject(DocumentObject(doc), obj);
      case ParseError(_) =>
        // the error string is only logged
    }
  }
}
