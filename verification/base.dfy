/** The model registry of `stdnet/orm/base.py`: how a model class's fields
    are collected (`get_fields`), how its `class Meta` options are read
    (`meta_options`), how the `Metaclass` enforces the primary-key rule, and
    the storage keys it derives (`basekey` and friends). */
module Base {
  import opened Strings
  import opened Values
  import opened Results
  import opened OrderedMaps

  /** A scalar field is stored in the instance hash; a structure field
      (set, list, hash, ...) is a remote structure of its own. */
  datatype FieldKind = Scalar | StructureField

  /** What the registry needs of a declared `Field`. */
  datatype Field = Field(kind: FieldKind, primaryKey: bool, default: Value)

  /** `AutoField(primary_key = True)`, the primary key every model receives. */
  const AutoPk: Field := Field(Scalar, true, Nil)

  /** `model._model_type`: `'object'` for a `StdModel`, anything else for a
      structure model. */
  datatype ModelType = ObjectModel | StructureModel

  /** A `Metaclass` instance, i.e. `Model._meta`. `dfields` holds the registered
      fields in registration order, the primary key first under `id`. `hash`
      is the model hash assigned by the hash registry. */
  datatype Meta = Meta(
    model: string,
    name: string,
    appLabel: Value,
    keyprefix: Value,
    isAbstract: Value,
    verboseName: string,
    pk: Field,
    dfields: OMap<string, Field>,
    modelType: ModelType,
    hash: string)

  // ---------------------------------------------------------------------
  // repr and storage keys

  /** `repr(meta)`: `app_label.name` when the app label is truthy, else `name`. */
  function Repr(m: Meta): string {
    if Truthy(m.appLabel) then Format(m.appLabel) + "." + m.name else m.name
  }

  /** `meta.basekey(arg)`: `'{0}{1}{2}'.format(keyprefix, meta, arg)`; a
      missing key prefix is `None` and prints as such. */
  function BaseKey(m: Meta, arg: string): string {
    Format(m.keyprefix) + Repr(m) + arg
  }

  /** `meta.autoid()`: the key of the id counter. */
  function AutoId(m: Meta): string {
    BaseKey(m, ":ids")
  }

  /** `meta.key_idset()`: the key of the set of ids. */
  function KeyIdSet(m: Meta): string {
    BaseKey(m, ":idset")
  }

  /** `meta.key_hash(id)`: the key of the hash holding instance `id`. */
  function KeyHash(m: Meta, id: Value): string {
    BaseKey(m, ":hash:" + Format(id))
  }

  /** `meta.key_index(field_name, value)`: the key of a field index. */
  function KeyIndex(m: Meta, fieldName: string, value: Value): string {
    BaseKey(m, ":index:" + fieldName + ":" + Format(value))
  }

  /** Every key of a model starts with `basekey()`, the prefix that
      `Metaclass.flush` matches with `basekey()*`; the suffix follows it. */
  lemma KeysExtendBaseKey(m: Meta, id: Value, fieldName: string, value: Value)
    ensures var b := BaseKey(m, "");
      && AutoId(m) == b + ":ids"
      && KeyIdSet(m) == b + ":idset"
      && KeyHash(m, id) == b + ":hash:" + Format(id)
      && KeyIndex(m, fieldName, value) == b + ":index:" + fieldName + ":" + Format(value)
  {
    var b := BaseKey(m, "");
    var pre := Format(m.keyprefix) + Repr(m);
    assert b == pre;
    var h := Format(id);
    assert KeyHash(m, id) == pre + (":hash:" + h);
    assert pre + (":hash:" + h) == pre + ":hash:" + h;
    var v := Format(value);
    assert KeyIndex(m, fieldName, value) == pre + (":index:" + fieldName + ":" + v);
    assert pre + (":index:" + fieldName + ":" + v) == pre + ":index:" + fieldName + ":" + v;
  }

  /** The basekey of a model whose app label is falsy is the key prefix
      followed by the bare model name; otherwise `app_label.` sits between. */
  lemma BaseKeyShape(m: Meta)
    ensures !Truthy(m.appLabel) ==> BaseKey(m, "") == Format(m.keyprefix) + m.name
    ensures Truthy(m.appLabel) ==> BaseKey(m, "") == Format(m.keyprefix) + Format(m.appLabel) + "." + m.name
  {
  }

  /** For one model, the hash key determines the printed id. */
  lemma KeyHashInjective(m: Meta, a: Value, b: Value)
    requires KeyHash(m, a) == KeyHash(m, b)
    ensures Format(a) == Format(b)
  {
    var p := BaseKey(m, ":hash:");
    var fa, fb := Format(a), Format(b);
    assert KeyHash(m, a) == p + fa;
    assert KeyHash(m, b) == p + fb;
    assert (p + fa)[|p|..] == fa;
    assert (p + fb)[|p|..] == fb;
  }

  /** The id counter, id set, instance hashes and indexes of one model never
      share a key, whatever the id, field name or value. */
  lemma KeysDistinct(m: Meta, id: Value, fieldName: string, value: Value)
    ensures AutoId(m) != KeyIdSet(m)
    ensures AutoId(m) != KeyHash(m, id) && AutoId(m) != KeyIndex(m, fieldName, value)
    ensures KeyIdSet(m) != KeyHash(m, id) && KeyIdSet(m) != KeyIndex(m, fieldName, value)
    ensures KeyHash(m, id) != KeyIndex(m, fieldName, value)
  {
    var b := BaseKey(m, "");
    var n := |b|;
    KeysExtendBaseKey(m, id, fieldName, value);
    assert |AutoId(m)| == n + 4;
    assert |KeyIdSet(m)| == n + 6;
    assert AutoId(m)[n + 1] == 'i' && KeyHash(m, id)[n + 1] == 'h';
    assert KeyIdSet(m)[n + 1] == 'i' && KeyIndex(m, fieldName, value)[n + 1] == 'i';
    assert KeyIndex(m, fieldName, value)[n + 2] == 'n' && AutoId(m)[n + 2] == 'd';
    assert KeyIdSet(m)[n + 2] == 'd';
  }

  // ---------------------------------------------------------------------
  // class Meta options

  /** The three options `meta_options` keeps. */
  datatype Options = Options(isAbstract: Value, keyprefix: Value, appLabel: Value)

  /** `meta_options(**Meta.__dict__)`: `abstract` (default `False`),
      `keyprefix` and `app_label` (default `None`); every other entry of the
      `Meta` class, `verbose_name` included, is swallowed by `**kwargs`. A
      declared value, even `None`, replaces the default. */
  function MetaOptions(decl: OMap<string, Value>): (r: Options)
    ensures "abstract" in Keys(decl) ==> Some(r.isAbstract) == Get(decl, "abstract")
    ensures "abstract" !in Keys(decl) ==> r.isAbstract == Flag(false)
    ensures "keyprefix" in Keys(decl) ==> Some(r.keyprefix) == Get(decl, "keyprefix")
    ensures "keyprefix" !in Keys(decl) ==> r.keyprefix == Nil
    ensures "app_label" in Keys(decl) ==> Some(r.appLabel) == Get(decl, "app_label")
    ensures "app_label" !in Keys(decl) ==> r.appLabel == Nil
  {
    Options(
      match Get(decl, "abstract") case Some(v) => v case None => Flag(false),
      match Get(decl, "keyprefix") case Some(v) => v case None => Nil,
      match Get(decl, "app_label") case Some(v) => v case None => Nil)
  }

  /** Only the three kept options matter: declarations that agree on them
      give the same options, whatever else they declare. */
  lemma MetaOptionsDiscardsOthers(d1: OMap<string, Value>, d2: OMap<string, Value>)
    requires Get(d1, "abstract") == Get(d2, "abstract")
    requires Get(d1, "keyprefix") == Get(d2, "keyprefix")
    requires Get(d1, "app_label") == Get(d2, "app_label")
    ensures MetaOptions(d1) == MetaOptions(d2)
  {
  }

  /** The app label when none is declared: the second-to-last dotted
      component of the module name, or `''` when the name has no dot (the
      `IndexError` of `[-2]` is caught). A declared label is kept. */
  function AppLabel(declared: Value, moduleName: string): Value {
    if declared != Nil then declared
    else
      var parts := Split(moduleName, '.');
      if |parts| >= 2 then Str(parts[|parts| - 2]) else Str("")
  }

  /** A dotted module name splits back into its components. */
  lemma ModuleSplit(parts: seq<string>)
    requires 1 <= |parts|
    requires forall i :: 0 <= i < |parts| ==> '.' !in parts[i]
    ensures Split(Join(".", parts), '.') == parts
  {
    SplitJoin(parts, '.');
  }

  /** The app label read off the components of the module name. */
  lemma AppLabelOfParts(declared: Value, moduleName: string, parts: seq<string>)
    requires Split(moduleName, '.') == parts
    ensures declared != Nil ==> AppLabel(declared, moduleName) == declared
    ensures declared == Nil && |parts| >= 2 ==> AppLabel(declared, moduleName) == Str(parts[|parts| - 2])
    ensures declared == Nil && |parts| < 2 ==> AppLabel(declared, moduleName) == Str("")
  {
  }

  /** For a module `a.b. ... .y.z` the derived app label is `y`; for a module
      name without a dot it is empty; a declared label always wins. */
  lemma AppLabelDerivation(declared: Value, parts: seq<string>)
    requires 1 <= |parts|
    requires forall i :: 0 <= i < |parts| ==> '.' !in parts[i]
    ensures declared != Nil ==> AppLabel(declared, Join(".", parts)) == declared
    ensures declared == Nil && |parts| >= 2 ==> AppLabel(declared, Join(".", parts)) == Str(parts[|parts| - 2])
    ensures declared == Nil && |parts| == 1 ==> AppLabel(declared, Join(".", parts)) == Str("")
  {
    ModuleSplit(parts);
    AppLabelOfParts(declared, Join(".", parts), parts);
  }

  // ---------------------------------------------------------------------
  // get_fields

  /** An attribute of the class body: a `Field` or anything else. */
  datatype Attr = FieldAttr(field: Field) | OtherAttr(value: Value)

  /** A base class; `meta` is its `_meta` when it has one. */
  datatype BaseClass = BaseClass(meta: Option<Meta>)

  /** The field a class body declares under `k`, if any. */
  function Declared(attrs: OMap<string, Attr>, k: string): Option<Field> {
    var a := Get(attrs, k);
    if a.Some? && a.value.FieldAttr? then Some(a.value.field) else None
  }

  /** The field inherited under `k`: from the last base that has one. */
  function Inherited(bases: seq<BaseClass>, k: string): Option<Field> {
    if |bases| == 0 then None
    else
      match Inherited(bases[1..], k)
      case Some(f) => Some(f)
      case None =>
        if bases[0].meta.Some? then Get(bases[0].meta.value.dfields, k) else None
  }

  predicate BasesWellFormed(bases: seq<BaseClass>) {
    forall i :: 0 <= i < |bases| && bases[i].meta.Some? ==> Distinct(bases[i].meta.value.dfields)
  }

  /** `fields.update(base._meta.dfields)` for every base with a `_meta`. */
  function InheritFields(acc: OMap<string, Field>, bases: seq<BaseClass>): OMap<string, Field>
    decreases |bases|
  {
    if |bases| == 0 then acc
    else
      var next := if bases[0].meta.Some? then Update(acc, bases[0].meta.value.dfields) else acc;
      InheritFields(next, bases[1..])
  }

  lemma {:induction false} InheritFieldsGet(acc: OMap<string, Field>, bases: seq<BaseClass>, k: string)
    requires BasesWellFormed(bases)
    ensures Get(InheritFields(acc, bases), k) ==
      match Inherited(bases, k) case Some(f) => Some(f) case None => Get(acc, k)
    decreases |bases|
  {
    if |bases| > 0 {
      var next := if bases[0].meta.Some? then Update(acc, bases[0].meta.value.dfields) else acc;
      assert BasesWellFormed(bases[1..]) by {
        forall i | 0 <= i < |bases[1..]| && bases[1..][i].meta.Some?
          ensures Distinct(bases[1..][i].meta.value.dfields)
        {
          assert bases[1..][i] == bases[i + 1];
        }
      }
      InheritFieldsGet(next, bases[1..], k);
      if bases[0].meta.Some? {
        UpdateGet(acc, bases[0].meta.value.dfields, k);
      }
    }
  }

  /** Moves the fields of the class body into `fields` (later names override)
      and drops them from the body. */
  function TakeFields(fields: OMap<string, Field>, attrs: OMap<string, Attr>): (r: (OMap<string, Field>, OMap<string, Attr>))
    ensures Keys(r.1) <= Keys(attrs)
    ensures forall i :: 0 <= i < |r.1| ==> r.1[i].value.OtherAttr?
    decreases |attrs|
  {
    if |attrs| == 0 then (fields, [])
    else
      var e := attrs[0];
      match e.value
      case FieldAttr(f) => TakeFields(Put(fields, e.key, f), attrs[1..])
      case OtherAttr(_) =>
        var (fs, rest) := TakeFields(fields, attrs[1..]);
        assert ([e] + rest)[1..] == rest;
        (fs, [e] + rest)
  }

  lemma {:induction false} TakeFieldsGet(fields: OMap<string, Field>, attrs: OMap<string, Attr>, k: string)
    requires Distinct(attrs)
    ensures Get(TakeFields(fields, attrs).0, k) ==
      match Declared(attrs, k) case Some(f) => Some(f) case None => Get(fields, k)
    decreases |attrs|
  {
    if |attrs| > 0 {
      var e := attrs[0];
      var next := if e.value.FieldAttr? then Put(fields, e.key, e.value.field) else fields;
      TakeFieldsGet(next, attrs[1..], k);
      if k == e.key {
        assert Get(attrs[1..], k) == None;
      }
    }
  }

  lemma {:induction false} TakeFieldsRest(fields: OMap<string, Field>, attrs: OMap<string, Attr>, k: string)
    requires Distinct(attrs)
    ensures Get(TakeFields(fields, attrs).1, k) == if Declared(attrs, k).Some? then None else Get(attrs, k)
    decreases |attrs|
  {
    if |attrs| > 0 {
      var e := attrs[0];
      var next := if e.value.FieldAttr? then Put(fields, e.key, e.value.field) else fields;
      TakeFieldsRest(next, attrs[1..], k);
      if k == e.key {
        assert Get(attrs[1..], k) == None;
      }
    }
  }

  /** `get_fields(bases, attrs)`: the merged fields and the class body without
      them. */
  function GetFields(bases: seq<BaseClass>, attrs: OMap<string, Attr>): (OMap<string, Field>, OMap<string, Attr>) {
    TakeFields(InheritFields([], bases), attrs)
  }

  /** Field merge order: a field declared in the class body wins, otherwise
      the one of the last base declaring it; the class body keeps exactly its
      non-field attributes. */
  lemma GetFieldsSpec(bases: seq<BaseClass>, attrs: OMap<string, Attr>, k: string)
    requires BasesWellFormed(bases)
    requires Distinct(attrs)
    ensures Get(GetFields(bases, attrs).0, k) ==
      match Declared(attrs, k) case Some(f) => Some(f) case None => Inherited(bases, k)
    ensures Get(GetFields(bases, attrs).1, k) == if Declared(attrs, k).Some? then None else Get(attrs, k)
  {
    TakeFieldsGet(InheritFields([], bases), attrs, k);
    TakeFieldsRest(InheritFields([], bases), attrs, k);
    InheritFieldsGet([], bases, k);
  }

  // ---------------------------------------------------------------------
  // Metaclass.__init__

  /** A field other than `id` that claims to be a primary key. */
  predicate ClaimsPk(e: Entry<string, Field>) {
    e.key != "id" && e.value.primaryKey
  }

  /** The registration loop over the fields: the first field other than `id`
      with `primary_key` set raises `FieldError`. */
  function FirstExtraPk(fields: OMap<string, Field>): (r: Option<nat>)
    ensures r.None? <==> forall i :: 0 <= i < |fields| ==> !ClaimsPk(fields[i])
    ensures r.Some? ==> r.value < |fields| && ClaimsPk(fields[r.value])
    ensures r.Some? ==> forall j :: 0 <= j < r.value ==> !ClaimsPk(fields[j])
  {
    if |fields| == 0 then None
    else if ClaimsPk(fields[0]) then Some(0)
    else
      match FirstExtraPk(fields[1..])
      case None => None
      case Some(i) => Some(i + 1)
  }

  /** The registered fields of `Metaclass.__init__`. The test `id in fields`
      looks up the builtin `id`, never a field name, so the primary key is
      always a fresh `AutoField(primary_key = True)` registered as `id`, and a
      declared `id` field is skipped by the loop. Any other field with
      `primary_key` set raises `FieldError`. */
  function RegisterFields(fields: OMap<string, Field>): (r: Result<OMap<string, Field>>)
    ensures r.Err? <==> exists i :: 0 <= i < |fields| && ClaimsPk(fields[i])
    ensures r.Err? ==> exists i :: 0 <= i < |fields| && ClaimsPk(fields[i]) && r.error == FieldError(fields[i].key)
    ensures r.Ok? ==> Get(r.value, "id") == Some(AutoPk)
    ensures r.Ok? ==> forall k :: k != "id" ==> Get(r.value, k) == Get(fields, k)
    ensures r.Ok? && Distinct(fields) ==> Distinct(r.value)
  {
    var pk := AutoPk;
    if !pk.primaryKey then Err(FieldError("id"))
    else
      match FirstExtraPk(fields)
      case Some(i) => Err(FieldError(fields[i].key))
      case None =>
        var rest := Remove(fields, "id");
        assert ([Entry("id", pk)] + rest)[1..] == rest;
        Ok([Entry("id", pk)] + rest)
  }

  /** The primary key that registration evidently means to use: the declared
      `id` field when there is one, else a fresh automatic key. */
  function DeclaredPk(fields: OMap<string, Field>): Field {
    match Get(fields, "id")
    case Some(f) => f
    case None => AutoPk
  }

  /** Registration with the membership test on the name `'id'`: a declared
      `id` field becomes the primary key and must be one ("Primary key must be
      named id"); any other field claiming the role still raises. */
  function RegisterFieldsIntended(fields: OMap<string, Field>): (r: Result<OMap<string, Field>>)
    ensures r.Err? <==> !DeclaredPk(fields).primaryKey || exists i :: 0 <= i < |fields| && ClaimsPk(fields[i])
    ensures r.Ok? ==> Get(r.value, "id") == Some(DeclaredPk(fields)) && DeclaredPk(fields).primaryKey
    ensures r.Ok? && "id" in Keys(fields) ==> Get(r.value, "id") == Get(fields, "id")
    ensures r.Ok? ==> forall k :: k != "id" ==> Get(r.value, k) == Get(fields, k)
    ensures r.Ok? && Distinct(fields) ==> Distinct(r.value)
  {
    var pk := DeclaredPk(fields);
    if !pk.primaryKey then Err(FieldError("id"))
    else
      match FirstExtraPk(fields)
      case Some(i) => Err(FieldError(fields[i].key))
      case None =>
        var rest := Remove(fields, "id");
        assert ([Entry("id", pk)] + rest)[1..] == rest;
        Ok([Entry("id", pk)] + rest)
  }

  /** A declared `id` that is not a primary key: as written it is silently
      replaced by the automatic key, whereas the intended check rejects it. */
  lemma NonPkIdIgnored(f: Field)
    requires !f.primaryKey
    ensures RegisterFields([Entry("id", f)]) == Ok([Entry("id", AutoPk)])
    ensures RegisterFieldsIntended([Entry("id", f)]) == Err(FieldError("id"))
  {
    var fs := [Entry("id", f)];
    assert !ClaimsPk(fs[0]);
    assert FirstExtraPk(fs) == None;
    assert Remove(fs, "id") == [];
    assert [Entry("id", AutoPk)] + [] == [Entry("id", AutoPk)];
  }

  /** What registration guarantees of a `_meta`: distinct field names and the
      automatic primary key under `id`. */
  predicate Registered(m: Meta) {
    Distinct(m.dfields) && Get(m.dfields, "id") == Some(AutoPk) && m.pk == AutoPk
  }

  /** The fields stored in the instance hash: the non-primary-key scalar
      fields, in registration order. */
  function ScalarFields(fields: OMap<string, Field>): (r: OMap<string, Field>)
    ensures forall i :: 0 <= i < |r| ==> r[i].value.kind == Scalar && !r[i].value.primaryKey
    ensures Keys(r) <= Keys(fields)
    ensures Distinct(fields) ==> Distinct(r)
    ensures Distinct(fields) ==> forall k :: Get(r, k) == (match Get(fields, k)
      case Some(f) => if f.kind == Scalar && !f.primaryKey then Some(f) else None
      case None => None)
  {
    if |fields| == 0 then []
    else
      var rest := ScalarFields(fields[1..]);
      var f := fields[0].value;
      if f.kind == Scalar && !f.primaryKey then
        assert ([fields[0]] + rest)[1..] == rest;
        [fields[0]] + rest
      else rest
  }

  /** `StdNetType.__new__` followed by `Metaclass.__init__`: the `_meta` of a
      new model class `className` defined in module `moduleName`. `None` when
      no base is itself a model class (the class is created plainly). */
  function MakeMeta(className: string, moduleName: string, hasModelParent: bool,
                    bases: seq<BaseClass>, attrs: OMap<string, Attr>,
                    decl: Option<OMap<string, Value>>, modelType: ModelType, hash: string)
    : (r: Result<Option<Meta>>)
    ensures !hasModelParent ==> r == Ok(None)
    ensures hasModelParent && r.Ok? ==> r.value.Some?
  {
    if !hasModelParent then Ok(None)
    else
      var opts := MetaOptions(if decl.Some? then decl.value else []);
      var (fields, _) := GetFields(bases, attrs);
      var appLabel := AppLabel(opts.appLabel, moduleName);
      var name := Lower(className);
      match RegisterFields(fields)
      case Err(e) => Err(e)
      case Ok(dfields) =>
        Ok(Some(Meta(className, name, appLabel, opts.keyprefix, opts.isAbstract,
                     name, AutoPk, dfields, modelType, hash)))
  }

  /** What registration promises of the new `_meta`: the name is the
      lower-cased class name, `verbose_name` always equals it (the option is
      discarded before it reaches `Metaclass`), the app label follows the
      declared option or the module, the primary key is the automatic one,
      and registration fails exactly when a field other than `id` claims to be
      a primary key. */
  lemma MakeMetaSpec(className: string, moduleName: string,
                     bases: seq<BaseClass>, attrs: OMap<string, Attr>,
                     decl: OMap<string, Value>, modelType: ModelType, hash: string)
    ensures var r := MakeMeta(className, moduleName, true, bases, attrs, Some(decl), modelType, hash);
      var fields := GetFields(bases, attrs).0;
      && (r.Err? <==> exists i :: 0 <= i < |fields| && ClaimsPk(fields[i]))
      && (r.Ok? ==>
            && r.value.value.name == Lower(className)
            && r.value.value.verboseName == r.value.value.name
            && r.value.value.appLabel == AppLabel(MetaOptions(decl).appLabel, moduleName)
            && r.value.value.isAbstract == MetaOptions(decl).isAbstract
            && r.value.value.keyprefix == MetaOptions(decl).keyprefix
            && (Distinct(fields) ==> Registered(r.value.value)))
  {
  }

  /** The double primary key of the regression test: `id` and `code` both
      declared with `primary_key = True`. The declared `id` is ignored and
      `code` raises `FieldError`. */
  lemma DoublePrimaryKeyRejected(idField: Field, codeField: Field)
    requires idField.primaryKey && codeField.primaryKey
    ensures RegisterFields([Entry("id", idField), Entry("code", codeField)]) == Err(FieldError("code"))
  {
    var fs := [Entry("id", idField), Entry("code", codeField)];
    assert !ClaimsPk(fs[0]) && ClaimsPk(fs[1]);
    assert FirstExtraPk(fs[1..]) == Some(0);
  }
}
