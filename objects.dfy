/** A `QJsonHelper`-derived model object and the file system it persists to.
    The object holds its reflected properties (declared with `Q_PROPERTY_EX`
    or `Q_PROPERTY_EX_AUTOSAVE`), its plain fields (declared with `MEMBER` or
    `PROPERTY`, which the meta-object never sees), the load-finished flag and
    the path its auto-saving setters write to. */
module Objects {
  import opened Values
  import opened QtConversions
  import Encoders

  /** The file system as `QFile` sees it: file contents by path, and the
      paths the system refuses to open. A read-only open needs an existing
      file; a truncating write open creates one. */
  class Disk {
    var files: map<string, string>
    const denied: set<string>
    /** Every truncating write open, successful or not, in order. */
    ghost var writeOpens: seq<string>

    constructor (files: map<string, string>, denied: set<string>)
      ensures this.files == files && this.denied == denied && writeOpens == []
    {
      this.files := files;
      this.denied := denied;
      writeOpens := [];
    }

    predicate CanRead(path: string)
      reads this
    {
      path in files && path !in denied
    }

    predicate CanWrite(path: string)
    {
      path !in denied
    }

    /** Open `path` with WriteOnly | Text | Truncate, write `text`, close. */
    method WriteFile(path: string, text: string) returns (ok: bool)
      modifies this
      ensures ok == CanWrite(path)
      ensures files == if ok then old(files)[path := text] else old(files)
      ensures writeOpens == old(writeOpens) + [path]
    {
      ok := path !in denied;
      if ok {
        files := files[path := text];
      }
      writeOpens := writeOpens + [path];
    }

    /** Open `path` ReadOnly and read it all; "" when the open fails. */
    method ReadFile(path: string) returns (ok: bool, content: string)
      ensures ok == CanRead(path)
      ensures content == if ok then files[path] else ""
    {
      ok := path in files && path !in denied;
      content := if ok then files[path] else "";
    }
  }

  class JsonHelper {
    const qt: Qt
    /** The meta-object's property table. */
    const props: seq<PropertyDescriptor>
    /** The `m_<name>` field behind each reflected property. */
    var values: map<string, Variant>
    /** Fields declared with `MEMBER` or `PROPERTY`. */
    var fields: map<string, Variant>
    /** `loadFinish_`. */
    var loadFinish: bool
    /** `m_filePath`, the path the auto-saving setters save to. */
    const filePath: string
    const disk: Disk
    /** How many times the `checkModel()` hook has run. */
    ghost var checkModelCalls: nat

    /** `QJsonHelper(parent)` together with the subclass's field
        initialisers: `MEMBER` fields start at their `init` values. */
    constructor (qt: Qt, props: seq<PropertyDescriptor>, values: map<string, Variant>,
                 init: map<string, Variant>, filePath: string, disk: Disk)
      requires forall i :: 0 <= i < |props| ==> props[i].name in values
      ensures Valid()
      ensures this.qt == qt && this.props == props && this.values == values
      ensures fields == init && this.filePath == filePath && this.disk == disk
      ensures !loadFinish && checkModelCalls == 0
    {
      this.qt := qt;
      this.props := props;
      this.values := values;
      fields := init;
      this.filePath := filePath;
      this.disk := disk;
      loadFinish := false;
      checkModelCalls := 0;
    }

    /** Every reflected property has its field. */
    predicate Valid()
      reads this
    {
      forall i :: 0 <= i < |props| ==> props[i].name in values
    }

    /** Some reflected property has an auto-saving setter. */
    predicate HasAutoSave()
    {
      exists i :: 0 <= i < |props| && props[i].setter == AutoSaveSetter
    }

    /** The object as the reflection sees it. */
    function State(): ObjectState
      reads this
    {
      ObjectState(props, values)
    }

    /** `isLoadFinish()`. */
    function IsLoadFinish(): bool
      reads this
    {
      loadFinish
    }

    /** `jsonObject()`: `qobject2qjsonobject(this)` with the default list. */
    function JsonObject(): (r: map<string, Json>)
      reads this
      ensures "objectName" !in r
    {
      Encoders.ObjectNameIgnoredByDefault(qt, State());
      Encoders.JsonObjectOf(qt, State(), Encoders.DefaultIgnored)
    }

    /** `json()`: `qobject2json(this)` with the default list. */
    function Json(): (r: string)
      reads this
      ensures r == qt.serialize(JsonObject())
    {
      Encoders.QObjectToJson(qt, State(), Encoders.DefaultIgnored)
    }

    /** `variantMap()`: `qobject2variantmap(this)` with the default list. */
    function VariantMap(): (r: map<string, Variant>)
      reads this
      ensures "objectName" !in r
    {
      Encoders.VariantMapOf(Some(State()), Encoders.DefaultIgnored)
    }

    /** The getter `get_<name>()` of any of the four macros. */
    function Get(name: string): Variant
      reads this
    {
      PropertyValue(State(), name)
    }

    /** The setter of `Q_PROPERTY_EX`: assigns unconditionally. */
    method SetPlain(name: string, v: Variant)
      requires name in values
      modifies this`values
      ensures values == old(values)[name := v]
      ensures Get(name) == v
    {
      values := values[name := v];
    }

    /** The setter of `Q_PROPERTY_EX_AUTOSAVE`: a different value is stored,
        and then, once loading has finished, saved to `m_filePath`. */
    method SetAutoSave(name: string, v: Variant)
      requires name in values
      modifies this`values, disk
      ensures Get(name) == v
      ensures old(Get(name)) == v ==> values == old(values)
      ensures old(Get(name)) != v ==> values == old(values)[name := v]
      ensures old(Get(name)) == v || !loadFinish ==>
                disk.files == old(disk.files) && disk.writeOpens == old(disk.writeOpens)
      ensures old(Get(name)) != v && loadFinish ==>
                disk.writeOpens == old(disk.writeOpens) + [filePath]
                && disk.files == if disk.CanWrite(filePath) then old(disk.files)[filePath := Json()] else old(disk.files)
    {
      if Get(name) != v {
        values := values[name := v];
        if IsLoadFinish() {
          var _ := Save(filePath);
        }
      }
    }

    /** The setter of `MEMBER` and `PROPERTY`: a plain field assignment the
        encoders never see. */
    method SetField(name: string, v: Variant)
      modifies this`fields
      ensures fields == old(fields)[name := v]
    {
      fields := fields[name := v];
    }

    /** `QMetaProperty::write` on property `i`: calls that property's setter;
        a property with no setter is not written. */
    method WriteProperty(i: nat, v: Variant)
      requires i < |props| && Valid()
      modifies this`values, disk
      ensures Valid()
      ensures props[i].Writable() ==> values == old(values)[props[i].name := v]
      ensures !props[i].Writable() ==> values == old(values)
      ensures props[i].setter != AutoSaveSetter || !loadFinish || old(values)[props[i].name] == v ==>
                disk.files == old(disk.files) && disk.writeOpens == old(disk.writeOpens)
      ensures props[i].setter == AutoSaveSetter && loadFinish && old(values)[props[i].name] != v ==>
                disk.writeOpens == old(disk.writeOpens) + [filePath]
                && disk.files == if disk.CanWrite(filePath) then old(disk.files)[filePath := Json()] else old(disk.files)
      ensures disk.files - {filePath} == old(disk.files) - {filePath}
    {
      var p := props[i];
      match p.setter {
        case NoSetter =>
        case PlainSetter => SetPlain(p.name, v);
        case AutoSaveSetter => SetAutoSave(p.name, v);
      }
    }

    /** The member `save(fpath)`: truncates the file and writes `json()`. */
    method Save(fpath: string) returns (ok: bool)
      modifies disk
      ensures ok == disk.CanWrite(fpath)
      ensures disk.files == if ok then old(disk.files)[fpath := Json()] else old(disk.files)
      ensures disk.writeOpens == old(disk.writeOpens) + [fpath]
    {
      ok := disk.WriteFile(fpath, Json());
    }

    /** The default `checkModel()` hook: does nothing to the object. */
    method CheckModel()
      modifies this`checkModelCalls
      ensures checkModelCalls == old(checkModelCalls) + 1
    {
      checkModelCalls := checkModelCalls + 1;
    }
  }
}
