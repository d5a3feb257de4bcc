/** Model instances (`stdnet/orm/models.py` and `Metaclass.make` of
    `stdnet/orm/base.py`): equality, the universally unique id and its
    inverse `from_uuid`, the keyword constructor, serialisation to a
    dictionary and the precondition of `delete`. */
module Models {
  import opened Strings
  import opened Values
  import opened Results
  import opened OrderedMaps
  import opened Base

  /** What `instance.state()` reports: the id the session files the instance
      under, whether it is stored on the server, and whether it is deleted. */
  datatype State = State(iid: Value, persistent: bool, deleted: bool)

  /** A model instance: its class (`_meta`), its `id`, the values of its
      scalar fields, its state and whether `instance.session` is set. */
  datatype Instance = Instance(meta: Meta, id: Value, data: map<string, Value>, state: State, attached: bool)

  // ---------------------------------------------------------------------
  // equality and uuid

  /** `a == b`: instances of the same class with equal ids. */
  predicate Eq(a: Instance, b: Instance) {
    a.meta == b.meta && a.id == b.id
  }

  /** `a != b`: the negation of `==`. */
  predicate Ne(a: Instance, b: Instance) {
    !Eq(a, b)
  }

  /** Model equality is an equivalence relation, and `!=` is its negation. */
  lemma EqEquivalence(a: Instance, b: Instance, c: Instance)
    ensures Eq(a, a)
    ensures Eq(a, b) ==> Eq(b, a)
    ensures Eq(a, b) && Eq(b, c) ==> Eq(a, c)
    ensures Ne(a, b) <==> !Eq(a, b)
  {
  }

  /** The `uuid` property: the model hash and the id joined by a dot; an
      instance without a truthy id has none (`DoesNotExist`). */
  function Uuid(inst: Instance): (r: Result<string>)
    ensures r.Err? <==> !Truthy(inst.id)
    ensures r.Err? ==> r.error.DoesNotExist?
  {
    if !Truthy(inst.id) then Err(DoesNotExist("Object not saved. Cannot obtain universally unique id"))
    else Ok(inst.meta.hash + "." + Format(inst.id))
  }

  /** `__hash__` is the hash of the uuid, so equal instances must have equal
      uuids: equality never separates instances that hash alike. */
  lemma EqSameUuid(a: Instance, b: Instance)
    requires Eq(a, b)
    ensures Uuid(a) == Uuid(b)
  {
  }

  /** The lookup `from_uuid` performs: the model registered under the hash and
      the id text handed to `model.objects.get(id = ...)`. */
  datatype Lookup = Lookup(meta: Meta, id: string)

  /** `from_uuid(uuid)` up to the remote `get`: the uuid must split into
      exactly two dotted parts and the first must be a registered model hash. */
  function FromUuid(uuid: string, registry: map<string, Meta>): (r: Result<Lookup>)
    ensures r.Ok? <==> |Split(uuid, '.')| == 2 && Split(uuid, '.')[0] in registry
    ensures r.Err? ==> r.error.DoesNotExist?
  {
    var elems := Split(uuid, '.');
    if |elems| == 2 then
      if elems[0] in registry then Ok(Lookup(registry[elems[0]], elems[1]))
      else Err(DoesNotExist("model id not available"))
    else Err(DoesNotExist("uuid not recognized"))
  }

  /** Round trip: the uuid of a saved instance leads back to its class and its
      id, provided neither the model hash nor the printed id holds a dot. */
  lemma FromUuidOfUuid(inst: Instance, registry: map<string, Meta>)
    requires Truthy(inst.id)
    requires '.' !in inst.meta.hash && '.' !in Format(inst.id)
    requires inst.meta.hash in registry && registry[inst.meta.hash] == inst.meta
    ensures FromUuid(Uuid(inst).value, registry) == Ok(Lookup(inst.meta, Format(inst.id)))
  {
    var parts := [inst.meta.hash, Format(inst.id)];
    assert Join(['.'], parts) == inst.meta.hash + "." + Format(inst.id);
    SplitJoin(parts, '.');
  }

  /** With an integer id only the hash needs to be dot-free. */
  lemma FromUuidOfIntId(inst: Instance, registry: map<string, Meta>)
    requires inst.id.Int? && inst.id.i != 0
    requires '.' !in inst.meta.hash
    requires inst.meta.hash in registry && registry[inst.meta.hash] == inst.meta
    ensures FromUuid(Uuid(inst).value, registry) == Ok(Lookup(inst.meta, Format(inst.id)))
  {
    FormatIntPlain(inst.id.i);
    FromUuidOfUuid(inst, registry);
  }

  /** The other direction: an accepted uuid is the registered hash and the
      looked-up id joined by a dot. */
  lemma UuidOfFromUuid(uuid: string, registry: map<string, Meta>)
    requires FromUuid(uuid, registry).Ok?
    ensures var l := FromUuid(uuid, registry).value;
      exists h :: h in registry && registry[h] == l.meta && uuid == h + "." + l.id
  {
    var elems := Split(uuid, '.');
    JoinSplit(uuid, '.');
    assert elems == [elems[0], elems[1]];
    assert Join(['.'], elems) == elems[0] + "." + elems[1];
  }

  // ---------------------------------------------------------------------
  // construction

  /** The value a scalar field receives from the keyword arguments: the
      given value, or the field default when it is missing or `None`. */
  function Initial(given: Option<Value>, f: Field): Value {
    if given.Some? && given.value != Nil then given.value else f.default
  }

  /** The loop of `StdModel.__init__` over the scalar fields: each field takes
      its value from `kwargs.pop(name, None)`. Returns the field values and the
      keywords left over. */
  function FillFields(fields: OMap<string, Field>, kwargs: OMap<string, Value>): (r: (map<string, Value>, OMap<string, Value>))
    ensures r.0.Keys == Keys(fields)
    ensures Keys(r.1) == Keys(kwargs) - Keys(fields)
    ensures forall k :: k !in Keys(fields) ==> Get(r.1, k) == Get(kwargs, k)
    ensures Distinct(kwargs) ==> Distinct(r.1)
    decreases |fields|
  {
    if |fields| == 0 then (map[], kwargs)
    else
      var f := fields[0];
      var rest := FillFields(fields[1..], Remove(kwargs, f.key));
      (rest.0[f.key := Initial(Get(kwargs, f.key), f.value)], rest.1)
  }

  lemma {:induction false} FillFieldsValue(fields: OMap<string, Field>, kwargs: OMap<string, Value>, k: string, f: Field)
    requires Distinct(fields)
    requires Get(fields, k) == Some(f)
    ensures FillFields(fields, kwargs).0[k] == Initial(Get(kwargs, k), f)
    decreases |fields|
  {
    if fields[0].key != k {
      FillFieldsValue(fields[1..], Remove(kwargs, fields[0].key), k, f);
    }
  }

  /** `StdModel(**kwargs)`: the new, transient instance; `iid` is the identity
      the state of a fresh instance carries. A keyword that is neither a scalar
      field nor `id` raises `ValueError`, naming the first one. */
  function Construct(meta: Meta, kwargs: OMap<string, Value>, iid: Value): (r: Result<Instance>)
    ensures r.Ok? <==> Keys(kwargs) <= Keys(ScalarFields(meta.dfields)) + {"id"}
    ensures r.Err? ==> exists k :: k in Keys(kwargs) && k !in Keys(ScalarFields(meta.dfields)) && k != "id" && r.error == InvalidKeyword(k)
    ensures r.Ok? ==> r.value.meta == meta && r.value.data.Keys == Keys(ScalarFields(meta.dfields))
    ensures r.Ok? && Registered(meta) ==> r.value.id == (match Get(kwargs, "id") case Some(v) => v case None => Nil)
    ensures r.Ok? ==> r.value.state == State(iid, false, false) && !r.value.attached
  {
    var scalars := ScalarFields(meta.dfields);
    var (data, rest) := FillFields(scalars, kwargs);
    var id := match Get(rest, "id") case Some(v) => v case None => Nil;
    var left := Remove(rest, "id");
    assert Registered(meta) ==> "id" !in Keys(scalars);
    if |left| > 0 then
      EntryKeyIn(left, 0);
      Err(InvalidKeyword(left[0].key))
    else
      assert Keys(left) == {};
      Ok(Instance(meta, id, data, State(iid, false, false), false))
  }

  /** Each scalar field of a constructed instance holds the keyword value, or
      its default when the keyword is missing or `None`. */
  lemma ConstructFieldValue(meta: Meta, kwargs: OMap<string, Value>, iid: Value, k: string, f: Field)
    requires Distinct(meta.dfields)
    requires Construct(meta, kwargs, iid).Ok?
    requires Get(meta.dfields, k) == Some(f) && f.kind == Scalar && !f.primaryKey
    ensures Construct(meta, kwargs, iid).value.data[k] == Initial(Get(kwargs, k), f)
  {
    FillFieldsValue(ScalarFields(meta.dfields), kwargs, k, f);
  }

  /** `Metaclass.make(id, data)`: an instance built from server data. The
      scalar fields are paired with `data` in order and converted by
      `to_python`; fields beyond the end of `data` are not set. */
  function Make(meta: Meta, id: Value, data: seq<Value>, toPython: (Field, Value) -> Value, st: State): (r: Instance)
    ensures r.meta == meta && r.id == id && r.state == st
    ensures forall i :: 0 <= i < |ScalarFields(meta.dfields)| && i < |data| ==>
      ScalarFields(meta.dfields)[i].key in r.data
  {
    Instance(meta, id, Zip(ScalarFields(meta.dfields), data, toPython), st, false)
  }

  /** `zip(fields, data)` assigning `to_python(value)` to each field. */
  function Zip(fields: OMap<string, Field>, data: seq<Value>, toPython: (Field, Value) -> Value): (r: map<string, Value>)
    ensures r.Keys == set i | 0 <= i < |fields| && i < |data| :: fields[i].key
    decreases |fields|
  {
    if |fields| == 0 || |data| == 0 then map[]
    else
      var rest := Zip(fields[1..], data[1..], toPython);
      assert forall k :: k in rest.Keys ==> k in (set i | 0 <= i < |fields| && i < |data| :: fields[i].key) by {
        forall k | k in rest.Keys
          ensures k in (set i | 0 <= i < |fields| && i < |data| :: fields[i].key)
        {
          var j :| 0 <= j < |fields[1..]| && j < |data[1..]| && fields[1..][j].key == k;
          assert fields[j + 1].key == k;
        }
      }
      rest[fields[0].key := toPython(fields[0].value, data[0])]
  }

  /** The value `make` stores for the i-th scalar field is the converted i-th
      datum, when the field names are distinct. */
  lemma {:induction false} ZipValue(fields: OMap<string, Field>, data: seq<Value>, toPython: (Field, Value) -> Value, i: nat)
    requires Distinct(fields)
    requires i < |fields| && i < |data|
    ensures Zip(fields, data, toPython)[fields[i].key] == toPython(fields[i].value, data[i])
    decreases |fields|
  {
    if i > 0 {
      ZipValue(fields[1..], data[1..], toPython, i - 1);
      EntryKeyIn(fields[1..], i - 1);
    }
  }

  /** An instance made from server data holds, in its i-th scalar field,
      the i-th datum converted by that field's `to_python`. */
  lemma MakeValues(meta: Meta, id: Value, data: seq<Value>, toPython: (Field, Value) -> Value, st: State, i: nat)
    requires Distinct(meta.dfields)
    requires i < |ScalarFields(meta.dfields)| && i < |data|
    ensures Make(meta, id, data, toPython, st).data[ScalarFields(meta.dfields)[i].key]
      == toPython(ScalarFields(meta.dfields)[i].value, data[i])
  {
    ZipValue(ScalarFields(meta.dfields), data, toPython, i);
  }

  // ---------------------------------------------------------------------
  // serialisation

  /** The value of field `k` on the instance, `None` when unset. */
  function Attr(inst: Instance, k: string): Value {
    if k in inst.data then inst.data[k] else Nil
  }

  /** The loop of `todict` over the given scalar fields. */
  function Serialise(inst: Instance, fields: OMap<string, Field>, ser: (Field, Value) -> Value): (r: OMap<string, Value>)
    ensures Keys(r) <= Keys(fields)
    ensures Distinct(fields) ==> Distinct(r)
    ensures Distinct(fields) ==> forall k :: Get(r, k) == (match Get(fields, k)
      case Some(f) => if Truthy(ser(f, Attr(inst, k))) then Some(ser(f, Attr(inst, k))) else None
      case None => None)
    decreases |fields|
  {
    if |fields| == 0 then []
    else
      var rest := Serialise(inst, fields[1..], ser);
      var v := ser(fields[0].value, Attr(inst, fields[0].key));
      if Truthy(v) then
        assert ([Entry(fields[0].key, v)] + rest)[1..] == rest;
        [Entry(fields[0].key, v)] + rest
      else rest
  }

  /** `instance.todict()`: the serialised scalar fields whose serialised value
      is truthy; falsy values are left out. */
  function ToDict(inst: Instance, ser: (Field, Value) -> Value): (r: OMap<string, Value>)
    ensures Distinct(inst.meta.dfields) ==> Distinct(r)
    ensures Distinct(inst.meta.dfields) ==> forall k :: Get(r, k).Some? <==>
      (exists f :: Get(inst.meta.dfields, k) == Some(f) && f.kind == Scalar && !f.primaryKey && Truthy(ser(f, Attr(inst, k))))
    ensures Distinct(inst.meta.dfields) ==> forall k :: Get(r, k).Some? ==>
      exists f :: Get(inst.meta.dfields, k) == Some(f) && Get(r, k) == Some(ser(f, Attr(inst, k)))
  {
    Serialise(inst, ScalarFields(inst.meta.dfields), ser)
  }

  /** The primary key and structure fields are never part of `todict`. */
  lemma ToDictOmitsPk(inst: Instance, ser: (Field, Value) -> Value)
    requires Distinct(inst.meta.dfields)
    requires Get(inst.meta.dfields, "id") == Some(AutoPk)
    ensures Get(ToDict(inst, ser), "id") == None
  {
  }

  /** What `model_to_dict` receives: an instance or a model class. */
  datatype Target = OfInstance(inst: Instance) | OfClass(meta: Meta)

  /** The loop of `model_to_dict` over `meta.fields` for a class: the truthy
      defaults. */
  function Defaults(fields: OMap<string, Field>): (r: OMap<string, Value>)
    ensures Keys(r) <= Keys(fields)
    ensures Distinct(fields) ==> Distinct(r)
    ensures Distinct(fields) ==> forall k :: Get(r, k) == (match Get(fields, k)
      case Some(f) => if Truthy(f.default) then Some(f.default) else None
      case None => None)
    decreases |fields|
  {
    if |fields| == 0 then []
    else
      var rest := Defaults(fields[1..]);
      var f := fields[0];
      if Truthy(f.value.default) then
        assert ([Entry(f.key, f.value.default)] + rest)[1..] == rest;
        [Entry(f.key, f.value.default)] + rest
      else rest
  }

  /** `model_to_dict(instance)`: `todict()` for an instance, the truthy
      defaults of every field for a class. */
  function ModelToDict(t: Target, ser: (Field, Value) -> Value): (r: OMap<string, Value>)
    ensures t.OfInstance? ==> r == ToDict(t.inst, ser)
    ensures t.OfClass? && Distinct(t.meta.dfields) ==> forall k :: Get(r, k).Some? ==>
      exists f :: Get(t.meta.dfields, k) == Some(f) && Truthy(f.default) && Get(r, k) == Some(f.default)
    ensures t.OfClass? && Distinct(t.meta.dfields) ==> forall k, f :: Get(t.meta.dfields, k) == Some(f) && Truthy(f.default) ==>
      Get(r, k) == Some(f.default)
  {
    match t
    case OfInstance(inst) => ToDict(inst, ser)
    case OfClass(meta) => Defaults(meta.dfields)
  }

  /** A class whose fields have no truthy default gives an empty dictionary. */
  lemma ModelToDictNoDefaults(meta: Meta, ser: (Field, Value) -> Value)
    requires forall i :: 0 <= i < |meta.dfields| ==> !Truthy(meta.dfields[i].value.default)
    ensures ModelToDict(OfClass(meta), ser) == []
  {
    NoDefaults(meta.dfields);
  }

  lemma {:induction false} NoDefaults(fields: OMap<string, Field>)
    requires forall i :: 0 <= i < |fields| ==> !Truthy(fields[i].value.default)
    ensures Defaults(fields) == []
    decreases |fields|
  {
    if |fields| > 0 {
      assert !Truthy(fields[0].value.default);
      NoDefaults(fields[1..]);
    }
  }

  // ---------------------------------------------------------------------
  // delete

  /** The precondition of `instance.delete()`: an instance never saved (no
      truthy id) raises before anything is sent to the server. */
  function DeleteCheck(inst: Instance): (r: Result<Instance>)
    ensures r.Ok? ==> r.value == inst
  {
    if !Truthy(inst.id) then Err(NeverSaved) else Ok(inst)
  }

  /** An instance can be deleted exactly when it has a uuid. */
  lemma DeleteCheckUuid(inst: Instance)
    ensures DeleteCheck(inst).Ok? <==> Uuid(inst).Ok?
    ensures DeleteCheck(inst).Err? ==> DeleteCheck(inst).error == NeverSaved
  {
  }
}
