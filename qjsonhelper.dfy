/** The persistence layer of `QJsonHelper`: loading a file into an object
    (which is what turns the load-finished flag on), the static save and
    load that work on any object, and merging a variant map or a JSON value
    into the object through compact JSON text. */
module QJsonHelper {
  import opened Values
  import opened QtConversions
  import opened DecodeRules
  import Encoders
  import opened Objects
  import QObjectHelper

  /** The member `load(fpath)`: when the file opens, its whole content goes
      through the `json2qobject` hook and the object counts as loaded, even
      if the content does not parse; `checkModel()` runs in either case.
      The flag is set only after the merge, so the merge of a first load
      never saves. */
  method Load(h: JsonHelper, fpath: string) returns (ok: bool)
    requires h.Valid()
    modifies h`values, h`loadFinish, h`checkModelCalls, h.disk
    ensures h.Valid()
    ensures ok == old(h.disk.CanRead(fpath))
    ensures h.loadFinish == (old(h.loadFinish) || ok)
    ensures h.checkModelCalls == old(h.checkModelCalls) + 1
    ensures ok ==> h.values == MergedText(h.qt, h.props, old(h.values), old(h.disk.files)[fpath])
    ensures !ok ==> h.values == old(h.values)
    ensures !ok || !old(h.loadFinish) || !h.HasAutoSave() ==>
              h.disk.files == old(h.disk.files) && h.disk.writeOpens == old(h.disk.writeOpens)
    ensures h.disk.files - {h.filePath} == old(h.disk.files) - {h.filePath}
  {
    var content;
    ok, content := h.disk.ReadFile(fpath);
    if ok {
      QObjectHelper.Json2QObject(content, h);
      h.loadFinish := true;
    } else {
      // the open error is only logged
    }
    h.CheckModel();
  }

  /** The static `save(object, fpath, ignoredProperties)`: truncates the
      file and writes `qobject2json(object, ignoredProperties)`. */
  method SaveObject(obj: JsonHelper, fpath: string, ignored: seq<string>) returns (ok: bool)
    modifies obj.disk
    ensures ok == obj.disk.CanWrite(fpath)
    ensures obj.disk.files
         == if ok then old(obj.disk.files)[fpath := Encoders.QObjectToJson(obj.qt, obj.State(), ignored)]
            else old(obj.disk.files)
    ensures obj.disk.writeOpens == old(obj.disk.writeOpens) + [fpath]
    ensures ok && ignored == Encoders.DefaultIgnored ==> obj.disk.files[fpath] == obj.Json()
  {
    var json := Encoders.QObjectToJson(obj.qt, obj.State(), ignored);
    ok := obj.disk.WriteFile(fpath, json);
  }

  /** The static `load(fpath, object)`: the same merge as the member `load`,
      but no load flag is set and no `checkModel()` runs. */
  method LoadObject(fpath: string, obj: JsonHelper) returns (ok: bool)
    requires obj.Valid()
    modifies obj`values, obj.disk
    ensures obj.Valid()
    ensures ok == old(obj.disk.CanRead(fpath))
    ensures ok ==> obj.values == MergedText(obj.qt, obj.props, old(obj.values), old(obj.disk.files)[fpath])
    ensures !ok || !obj.loadFinish || !obj.HasAutoSave() ==>
              obj.disk.files == old(obj.disk.files) && obj.disk.writeOpens == old(obj.disk.writeOpens)
    ensures !ok ==> obj.values == old(obj.values)
    ensures obj.disk.files - {obj.filePath} == old(obj.disk.files) - {obj.filePath}
  {
    var content;
    ok, content := obj.disk.ReadFile(fpath);
    if ok {
      QObjectHelper.Json2QObject(content, obj);
    }
  }

  /** `fromVariantMap(map)`: the map becomes a JSON object, the object
      compact text, and the text is merged into the object. When that text
      parses back to the same object this is a plain merge. */
  method FromVariantMap(h: JsonHelper, m: map<string, Variant>)
    requires h.Valid()
    modifies h`values, h.disk
    ensures h.Valid()
    ensures h.values == MergedText(h.qt, h.props, old(h.values), h.qt.serialize(ObjectFromVariantMap(h.qt, m)))
    ensures RoundTrips(h.qt, ObjectFromVariantMap(h.qt, m)) ==>
              h.values == Merged(h.qt, h.props, old(h.values), ObjectFromVariantMap(h.qt, m))
    ensures !h.loadFinish || !h.HasAutoSave() ==>
              h.disk.files == old(h.disk.files) && h.disk.writeOpens == old(h.disk.writeOpens)
    ensures h.disk.files - {h.filePath} == old(h.disk.files) - {h.filePath}
  {
    var jsonObj := ObjectFromVariantMap(h.qt, m);
    var text := h.qt.serialize(jsonObj);
    QObjectHelper.Json2QObject(text, h);
  }

  /** `fromJsonValue(jsonVal)`: `toObject()` of the value, as compact text,
      merged into the object. A value that is not an object becomes the
      empty object, and merging that changes no property. */
  method FromJsonValue(h: JsonHelper, jv: Json)
    requires h.Valid()
    modifies h`values, h.disk
    ensures h.Valid()
    ensures h.values == MergedText(h.qt, h.props, old(h.values), h.qt.serialize(ToObject(jv)))
    ensures RoundTrips(h.qt, ToObject(jv)) ==> h.values == Merged(h.qt, h.props, old(h.values), ToObject(jv))
    ensures !jv.Obj? && RoundTrips(h.qt, map[]) ==> h.values == old(h.values)
    ensures !h.loadFinish || !h.HasAutoSave() ==>
              h.disk.files == old(h.disk.files) && h.disk.writeOpens == old(h.disk.writeOpens)
    ensures h.disk.files - {h.filePath} == old(h.disk.files) - {h.filePath}
  {
    var jsonObj := ToObject(jv);
    var text := h.qt.serialize(jsonObj);
    QObjectHelper.Json2QObject(text, h);
    if !jv.Obj? {
      MergeEmpty(h.qt, h.props, old(h.values));
    }
  }
}
