/** `SessionModel` of `stdnet/orm/session.py`: the container, inside a
    session, of the instances of one model. Instances are filed by their
    state id (`iid`) in four insertion-ordered dictionaries: `new`
    (transient), `modified`, `loaded` and `deleted` (persistent). */
module SessionModels {
  import opened Values
  import opened Results
  import opened OrderedMaps
  import opened Base
  import opened Models

  type Bucket = OMap<Value, Instance>

  /** A delete query collected for the commit: the `id__in` query built from
      the deleted instances of an object model, a deleted member of a
      structure model, or a query constructed by the caller. */
  datatype DeleteQuery = IdIn(instances: seq<Instance>) | Member(inst: Instance) | Constructed(token: nat)

  datatype SessionModel = SessionModel(
    meta: Meta,
    created: Bucket,
    modified: Bucket,
    loaded: Bucket,
    deleted: Bucket,
    deleteQuery: seq<DeleteQuery>)

  /** The outcome of a mutating operation: the container afterwards (a raise
      keeps whatever was already changed) and the returned value or error. */
  datatype Step<T> = Step(sm: SessionModel, result: Result<T>)

  /** How the test `state not in self._modified` of `add` behaves. The
      dictionary is keyed by state ids, so the test can only mean something if
      a state compares equal to its id (`ByIid`); for a state object that
      compares by identity it never finds anything (`ByStateObject`). */
  datatype AddGuard = ByIid | ByStateObject

  function Empty(meta: Meta): (sm: SessionModel)
    ensures Len(sm) == 0 && Valid(sm)
  {
    SessionModel(meta, [], [], [], [], [])
  }

  // ---------------------------------------------------------------------
  // invariants

  /** In how many of the four dictionaries `k` is filed. */
  function Holders(sm: SessionModel, k: Value): nat {
    (if k in Keys(sm.created) then 1 else 0) + (if k in Keys(sm.modified) then 1 else 0)
    + (if k in Keys(sm.loaded) then 1 else 0) + (if k in Keys(sm.deleted) then 1 else 0)
  }

  /** Each dictionary is well formed and no id is filed twice, which is what
      `pop` checks when it raises "Instance is duplicated". */
  ghost predicate Valid(sm: SessionModel) {
    && Distinct(sm.created) && Distinct(sm.modified) && Distinct(sm.loaded) && Distinct(sm.deleted)
    && forall k :: Holders(sm, k) <= 1
  }

  /** Every instance is filed under its own state id. */
  predicate WellKeyed(b: Bucket) {
    forall i :: 0 <= i < |b| ==> b[i].value.state.iid == b[i].key
  }

  // ---------------------------------------------------------------------
  // queries

  /** `len(sm)`: pending instances; the loaded ones do not count. */
  function Len(sm: SessionModel): nat {
    |sm.created| + |sm.modified| + |sm.deleted|
  }

  /** On a valid container `len` counts the distinct ids of the pending
      instances: each is filed once, in exactly one of new, modified and
      deleted. */
  lemma LenCountsPending(sm: SessionModel)
    requires Valid(sm)
    ensures Len(sm) == |Keys(sm.created) + Keys(sm.modified) + Keys(sm.deleted)|
  {
    DistinctKeysCard(sm.created);
    DistinctKeysCard(sm.modified);
    DistinctKeysCard(sm.deleted);
    var c, m, d := Keys(sm.created), Keys(sm.modified), Keys(sm.deleted);
    assert c * m == {} by {
      forall k | k in c ensures k !in m { assert Holders(sm, k) <= 1; }
    }
    assert (c + m) * d == {} by {
      forall k | k in c + m ensures k !in d { assert Holders(sm, k) <= 1; }
    }
  }

  /** `iter(sm)`: the new, then the modified, then the deleted instances. */
  function Iter(sm: SessionModel): (r: seq<Instance>)
    ensures |r| == Len(sm)
    ensures forall i :: 0 <= i < |sm.created| ==> r[i] == sm.created[i].value
    ensures forall i :: 0 <= i < |sm.modified| ==> r[|sm.created| + i] == sm.modified[i].value
    ensures forall i :: 0 <= i < |sm.deleted| ==> r[|sm.created| + |sm.modified| + i] == sm.deleted[i].value
  {
    ValueList(sm.created) + ValueList(sm.modified) + ValueList(sm.deleted)
  }

  /** `instance in sm`: filed as new, deleted or modified; loaded instances
      are not "in" the session model. */
  predicate Contains(sm: SessionModel, inst: Instance) {
    var k := inst.state.iid;
    k in Keys(sm.created) || k in Keys(sm.deleted) || k in Keys(sm.modified)
  }

  /** Some instance of `s` carries the state id `k`. */
  predicate HasIid(s: seq<Instance>, k: Value) {
    exists j :: 0 <= j < |s| && s[j].state.iid == k
  }

  lemma HasIidConcat(a: seq<Instance>, b: seq<Instance>, k: Value)
    ensures HasIid(a + b, k) <==> HasIid(a, k) || HasIid(b, k)
  {
    if HasIid(a + b, k) {
      var j :| 0 <= j < |a + b| && (a + b)[j].state.iid == k;
      if j >= |a| {
        assert b[j - |a|].state.iid == k;
      }
    }
    if HasIid(b, k) {
      var j :| 0 <= j < |b| && b[j].state.iid == k;
      assert (a + b)[|a| + j].state.iid == k;
    }
    if HasIid(a, k) {
      var j :| 0 <= j < |a| && a[j].state.iid == k;
      assert (a + b)[j].state.iid == k;
    }
  }

  /** In a well-keyed dictionary a key is present exactly when one of the
      instances carries it as state id. */
  lemma KeyedValues(b: Bucket, k: Value)
    requires WellKeyed(b)
    ensures k in Keys(b) <==> HasIid(ValueList(b), k)
  {
    KeysIndex(b, k);
    if k in Keys(b) {
      var i :| 0 <= i < |b| && b[i].key == k;
      assert ValueList(b)[i].state.iid == k;
    }
    if HasIid(ValueList(b), k) {
      var i :| 0 <= i < |ValueList(b)| && ValueList(b)[i].state.iid == k;
      assert b[i].key == k;
    }
  }

  /** Membership agrees with iteration: an instance is in the session model
      exactly when iteration yields an instance with its state id. */
  lemma ContainsIter(sm: SessionModel, inst: Instance)
    requires WellKeyed(sm.created) && WellKeyed(sm.modified) && WellKeyed(sm.deleted)
    ensures Contains(sm, inst) <==> HasIid(Iter(sm), inst.state.iid)
  {
    var k := inst.state.iid;
    KeyedValues(sm.created, k);
    KeyedValues(sm.modified, k);
    KeyedValues(sm.deleted, k);
    HasIidConcat(ValueList(sm.created) + ValueList(sm.modified), ValueList(sm.deleted), k);
    HasIidConcat(ValueList(sm.created), ValueList(sm.modified), k);
  }

  /** `sm.get(id)`: looked up in `modified`, then `deleted`, then `loaded`;
      a new instance is not found by id. */
  function GetById(sm: SessionModel, id: Value): (r: Option<Instance>)
    ensures r.Some? <==> id in Keys(sm.modified) || id in Keys(sm.deleted) || id in Keys(sm.loaded)
    ensures id in Keys(sm.modified) ==> r == Get(sm.modified, id)
  {
    if id in Keys(sm.modified) then Get(sm.modified, id)
    else if id in Keys(sm.deleted) then Get(sm.deleted, id)
    else Get(sm.loaded, id)
  }

  /** In a valid session model, `get` finds exactly what is filed under the id
      in the one non-new dictionary holding it. */
  lemma GetByIdHolder(sm: SessionModel, id: Value)
    requires Valid(sm)
    ensures id in Keys(sm.deleted) ==> GetById(sm, id) == Get(sm.deleted, id)
    ensures id in Keys(sm.loaded) ==> GetById(sm, id) == Get(sm.loaded, id)
    ensures id in Keys(sm.created) ==> GetById(sm, id) == None
  {
    assert Holders(sm, id) <= 1;
  }

  // ---------------------------------------------------------------------
  // add

  /** `sm.add(instance, modified)`. A deleted state raises. A transient
      instance is filed as new. A persistent one goes to `modified` when
      flagged so (leaving `loaded`), otherwise to `loaded` unless the guard
      finds it among the modified. */
  function Add(sm: SessionModel, inst: Instance, modified: bool, guard: AddGuard): (r: Step<Instance>)
    ensures inst.state.deleted <==> r.result.Err?
    ensures r.result.Err? ==> r.sm == sm && r.result.error == StateDeleted
    ensures r.result.Ok? ==> r.result.value == inst && r.sm.meta == sm.meta && r.sm.deleteQuery == sm.deleteQuery
    ensures r.result.Ok? ==> r.sm.deleted == sm.deleted
    ensures r.result.Ok? && !inst.state.persistent ==>
      r.sm == sm.(created := Put(sm.created, inst.state.iid, inst))
    ensures r.result.Ok? && inst.state.persistent && modified ==>
      r.sm == sm.(loaded := Remove(sm.loaded, inst.state.iid), modified := Put(sm.modified, inst.state.iid, inst))
    ensures r.result.Ok? && inst.state.persistent && !modified && (guard == ByStateObject || inst.state.iid !in Keys(sm.modified)) ==>
      r.sm == sm.(loaded := Put(sm.loaded, inst.state.iid, inst))
    ensures r.result.Ok? && inst.state.persistent && !modified && guard == ByIid && inst.state.iid in Keys(sm.modified) ==>
      r.sm == sm
  {
    var iid := inst.state.iid;
    if inst.state.deleted then Step(sm, Err(StateDeleted))
    else if inst.state.persistent then
      if modified then
        Step(sm.(loaded := Remove(sm.loaded, iid), modified := Put(sm.modified, iid, inst)), Ok(inst))
      else if guard == ByStateObject || iid !in Keys(sm.modified) then
        Step(sm.(loaded := Put(sm.loaded, iid, inst)), Ok(inst))
      else Step(sm, Ok(inst))
    else Step(sm.(created := Put(sm.created, iid, inst)), Ok(inst))
  }

  /** Whether `k` is filed as new or deleted: the places a persistent add
      does not look at. */
  predicate PendingElsewhere(sm: SessionModel, k: Value) {
    k in Keys(sm.created) || k in Keys(sm.deleted)
  }

  /** With the guard comparing ids, `add` keeps every id filed at most once,
      provided a persistent instance is not also pending as new or deleted
      and a transient one is filed nowhere but among the new. Afterwards the
      instance is in the session model, or loaded when unmodified. */
  lemma AddPreservesValid(sm: SessionModel, inst: Instance, modified: bool)
    requires Valid(sm)
    requires inst.state.persistent ==> !PendingElsewhere(sm, inst.state.iid)
    requires !inst.state.persistent ==> Holders(sm, inst.state.iid) == (if inst.state.iid in Keys(sm.created) then 1 else 0)
    ensures Valid(Add(sm, inst, modified, ByIid).sm)
    ensures Add(sm, inst, modified, ByIid).result.Ok? && (modified || !inst.state.persistent) ==>
      Contains(Add(sm, inst, modified, ByIid).sm, inst)
    ensures Add(sm, inst, modified, ByIid).result.Ok? ==>
      Contains(Add(sm, inst, modified, ByIid).sm, inst) || inst.state.iid in Keys(Add(sm, inst, modified, ByIid).sm.loaded)
  {
    var r := Add(sm, inst, modified, ByIid).sm;
    var k := inst.state.iid;
    forall j
      ensures Holders(r, j) <= 1
    {
      assert Holders(sm, j) <= 1;
    }
  }

  /** The guard as written, when a state never equals an id: re-adding an
      unmodified persistent instance already filed as modified also files it
      as loaded, so the id is filed twice and the next `pop` of it raises. */
  lemma AddStateGuardDuplicates(sm: SessionModel, inst: Instance)
    requires Valid(sm)
    requires inst.state.persistent && !inst.state.deleted
    requires inst.state.iid in Keys(sm.modified)
    ensures !Valid(Add(sm, inst, false, ByStateObject).sm)
    ensures Pop(Add(sm, inst, false, ByStateObject).sm, AnId(inst.state.iid)).result == Err(Duplicated(inst.state.iid))
  {
    var r := Add(sm, inst, false, ByStateObject).sm;
    assert Holders(r, inst.state.iid) >= 2;
  }

  // ---------------------------------------------------------------------
  // pop

  /** What is being removed: an instance, or a bare id. */
  datatype PopArg = AnInstance(inst: Instance) | AnId(id: Value)

  /** One round of the loop of `pop` over a dictionary. */
  datatype Taken = Taken(rest: Bucket, found: Option<Instance>, duplicated: bool)

  function TakeFrom(d: Bucket, k: Value, found: Option<Instance>): (r: Taken)
    ensures k !in Keys(d) ==> r == Taken(d, found, false)
    ensures k in Keys(d) && found.Some? ==> r == Taken(d, found, true)
    ensures k in Keys(d) && found.None? ==> r == Taken(Remove(d, k), Get(d, k), false)
  {
    if k !in Keys(d) then Taken(d, found, false)
    else if found.Some? then Taken(d, found, true)
    else Taken(Remove(d, k), Get(d, k), false)
  }

  /** The loop of `pop` for the id `k` over `new`, `modified`, `loaded` and
      `deleted`: each holder is emptied in turn, and meeting a second holder
      raises with the first one already emptied. */
  function PopId(sm: SessionModel, k: Value): (r: Step<Option<Instance>>)
    ensures r.result.Err? <==> Holders(sm, k) >= 2
    ensures r.result.Err? ==> r.result.error == Duplicated(k)
    ensures r.result == Ok(None) <==> Holders(sm, k) == 0
    ensures Holders(sm, k) == 0 ==> r.sm == sm
    ensures r.sm.meta == sm.meta && r.sm.deleteQuery == sm.deleteQuery
    ensures forall j :: j != k ==> (Get(r.sm.created, j) == Get(sm.created, j) && Get(r.sm.modified, j) == Get(sm.modified, j)
      && Get(r.sm.loaded, j) == Get(sm.loaded, j) && Get(r.sm.deleted, j) == Get(sm.deleted, j))
    ensures Holders(sm, k) == 1 ==> Holders(r.sm, k) == 0
    ensures Holders(sm, k) == 1 ==> r.sm == sm.(created := Remove(sm.created, k),
      modified := Remove(sm.modified, k), loaded := Remove(sm.loaded, k), deleted := Remove(sm.deleted, k))
    ensures Holders(sm, k) == 1 && k in Keys(sm.created) ==> r.result == Ok(Get(sm.created, k))
    ensures Holders(sm, k) == 1 && k in Keys(sm.modified) ==> r.result == Ok(Get(sm.modified, k))
    ensures Holders(sm, k) == 1 && k in Keys(sm.loaded) ==> r.result == Ok(Get(sm.loaded, k))
    ensures Holders(sm, k) == 1 && k in Keys(sm.deleted) ==> r.result == Ok(Get(sm.deleted, k))
  {
    var t1 := TakeFrom(sm.created, k, None);
    var s1 := sm.(created := t1.rest);
    if t1.duplicated then Step(s1, Err(Duplicated(k)))
    else
      var t2 := TakeFrom(sm.modified, k, t1.found);
      var s2 := s1.(modified := t2.rest);
      if t2.duplicated then Step(s2, Err(Duplicated(k)))
      else
        var t3 := TakeFrom(sm.loaded, k, t2.found);
        var s3 := s2.(loaded := t3.rest);
        if t3.duplicated then Step(s3, Err(Duplicated(k)))
        else
          var t4 := TakeFrom(sm.deleted, k, t3.found);
          var s4 := s3.(deleted := t4.rest);
          if t4.duplicated then Step(s4, Err(Duplicated(k)))
          else Step(s4, Ok(t4.found))
  }

  /** `sm.pop(instance)`. An instance of the model is looked up by its state
      id, anything else is used as the key itself: an instance of another
      model hashes by its uuid, which raises when it has no id and otherwise
      matches no id key. */
  function Pop(sm: SessionModel, arg: PopArg): (r: Step<Option<Instance>>)
    ensures arg.AnInstance? && arg.inst.meta == sm.meta ==> r == PopId(sm, arg.inst.state.iid)
    ensures arg.AnId? ==> r == PopId(sm, arg.id)
    ensures arg.AnInstance? && arg.inst.meta != sm.meta ==> r.sm == sm
    ensures arg.AnInstance? && arg.inst.meta != sm.meta ==> (r.result.Err? <==> !Truthy(arg.inst.id))
    ensures arg.AnInstance? && arg.inst.meta != sm.meta && r.result.Ok? ==> r.result.value.None?
  {
    match arg
    case AnId(id) => PopId(sm, id)
    case AnInstance(inst) =>
      if inst.meta == sm.meta then PopId(sm, inst.state.iid)
      else if !Truthy(inst.id) then Step(sm, Err(Unhashable))
      else Step(sm, Ok(None))
  }

  /** Popping keeps the container valid: on success the id is filed nowhere,
      and on a valid container `pop` never raises. */
  lemma PopPreservesValid(sm: SessionModel, k: Value)
    requires Valid(sm)
    ensures PopId(sm, k).result.Ok?
    ensures Valid(PopId(sm, k).sm)
    ensures Holders(PopId(sm, k).sm, k) == 0
    ensures PopId(sm, k).result.value.Some? <==> Holders(sm, k) == 1
  {
    var r := PopId(sm, k).sm;
    assert Holders(sm, k) <= 1;
    forall j
      ensures Holders(r, j) <= 1
    {
      assert Holders(sm, j) <= 1;
    }
  }

  /** Re-adding what was just popped restores the container, for an instance
      that was new, or modified and re-added as modified. */
  lemma PopThenAddNew(sm: SessionModel, inst: Instance, guard: AddGuard)
    requires Valid(sm) && !inst.state.persistent && !inst.state.deleted
    requires |sm.created| > 0 && sm.created[|sm.created| - 1] == Entry(inst.state.iid, inst)
    ensures var p := PopId(sm, inst.state.iid);
      p.result == Ok(Some(inst)) && Add(p.sm, inst, false, guard).sm == sm
  {
    var k := inst.state.iid;
    var n := |sm.created|;
    EntryKeyIn(sm.created, n - 1);
    GetEntry(sm.created, n - 1);
    assert Holders(sm, k) == 1;
    RemoveLast(sm.created);
  }

  /** Removing the key of the last entry of a dictionary drops that entry. */
  lemma {:induction false} RemoveLast(d: Bucket)
    requires Distinct(d) && |d| > 0
    ensures Remove(d, d[|d| - 1].key) == d[..|d| - 1]
    ensures Put(d[..|d| - 1], d[|d| - 1].key, d[|d| - 1].value) == d
  {
    var k := d[|d| - 1].key;
    if |d| == 1 {
      assert Remove(d, k) == Remove(d[1..], k);
    } else {
      EntryKeyIn(d[1..], |d| - 2);
      assert d[0].key != k;
      RemoveLast(d[1..]);
      assert d[1..][..|d| - 2] == d[1..|d| - 1];
      assert d[..|d| - 1] == [d[0]] + d[1..|d| - 1];
      NotInPrefix(d, |d| - 1);
    }
    NotInPrefix(d, |d| - 1);
    assert d[..|d| - 1] + [d[|d| - 1]] == d;
  }

  /** In a dictionary the key of entry `i` does not occur before it. */
  lemma {:induction false} NotInPrefix(d: Bucket, i: nat)
    requires Distinct(d) && i < |d|
    ensures d[i].key !in Keys(d[..i])
  {
    if i > 0 {
      EntryKeyIn(d[1..], i - 1);
      NotInPrefix(d[1..], i - 1);
      assert d[1..][..i - 1] == d[1..i];
      assert d[..i] == [d[0]] + d[1..i];
      assert d[..i][1..] == d[1..i];
    }
  }

  // ---------------------------------------------------------------------
  // delete and expunge

  /** `sm.delete(instance)`: the instance is popped (or taken as given when
      not filed). A persistent one is marked deleted and filed as deleted; a
      transient one leaves the session. */
  function Delete(sm: SessionModel, inst: Instance): (r: Step<Instance>)
    ensures Pop(sm, AnInstance(inst)).result.Err? <==> r.result.Err?
    ensures r.result.Ok? ==> var p := Pop(sm, AnInstance(inst));
      var x := if p.result.value.Some? then p.result.value.value else inst;
      if x.state.persistent then
        r.result.value == x.(state := x.state.(deleted := true))
        && r.sm == p.sm.(deleted := Put(p.sm.deleted, x.state.iid, r.result.value))
      else
        r.result.value == x.(attached := false) && r.sm == p.sm
  {
    var p := Pop(sm, AnInstance(inst));
    match p.result
    case Err(e) => Step(p.sm, Err(e))
    case Ok(found) =>
      var x := if found.Some? then found.value else inst;
      if x.state.persistent then
        var d := x.(state := x.state.(deleted := true));
        Step(p.sm.(deleted := Put(p.sm.deleted, x.state.iid, d)), Ok(d))
      else Step(p.sm, Ok(x.(attached := false)))
  }

  /** Deleting an instance of the model from a valid container: a persistent
      one ends up filed only as deleted and is still "in" the container; a
      transient one is no longer filed at all. The container stays valid. */
  lemma DeleteSpec(sm: SessionModel, inst: Instance)
    requires Valid(sm) && inst.meta == sm.meta
    requires WellKeyed(sm.created) && WellKeyed(sm.modified) && WellKeyed(sm.loaded) && WellKeyed(sm.deleted)
    ensures Delete(sm, inst).result.Ok?
    ensures Valid(Delete(sm, inst).sm)
    ensures var r := Delete(sm, inst);
      r.result.value.state.persistent ==> (Holders(r.sm, inst.state.iid) == 1 && inst.state.iid in Keys(r.sm.deleted)
        && Contains(r.sm, inst) && r.result.value.state.deleted)
    ensures var r := Delete(sm, inst);
      !r.result.value.state.persistent ==> Holders(r.sm, inst.state.iid) == 0 && !r.result.value.attached
  {
    var k := inst.state.iid;
    PopPreservesValid(sm, k);
    var p := PopId(sm, k);
    assert Holders(sm, k) <= 1;
    if p.result.value.Some? {
      var x := p.result.value.value;
      assert x.state.iid == k by {
        FoundKeyed(sm, k);
      }
    }
    var r := Delete(sm, inst);
    forall j
      ensures Holders(r.sm, j) <= 1
    {
      assert Holders(p.sm, j) <= 1;
    }
  }

  /** What `pop` finds under `k` in a well-keyed container carries `k`. */
  lemma FoundKeyed(sm: SessionModel, k: Value)
    requires Valid(sm)
    requires WellKeyed(sm.created) && WellKeyed(sm.modified) && WellKeyed(sm.loaded) && WellKeyed(sm.deleted)
    requires PopId(sm, k).result.Ok? && PopId(sm, k).result.value.Some?
    ensures PopId(sm, k).result.value.value.state.iid == k
  {
    assert Holders(sm, k) <= 1;
    if k in Keys(sm.created) {
      KeyedGet(sm.created, k);
    } else if k in Keys(sm.modified) {
      KeyedGet(sm.modified, k);
    } else if k in Keys(sm.loaded) {
      KeyedGet(sm.loaded, k);
    } else {
      KeyedGet(sm.deleted, k);
    }
  }

  lemma {:induction false} KeyedGet(d: Bucket, k: Value)
    requires WellKeyed(d) && k in Keys(d)
    ensures Get(d, k).value.state.iid == k
  {
    if d[0].key != k {
      assert WellKeyed(d[1..]) by {
        forall i | 0 <= i < |d[1..]|
          ensures d[1..][i].value.state.iid == d[1..][i].key
        {
          assert d[1..][i] == d[i + 1];
        }
      }
      KeyedGet(d[1..], k);
    }
  }

  /** `sm.expunge(instance)`: pop and detach; popping nothing makes the
      detachment fail on `None`. */
  function Expunge(sm: SessionModel, arg: PopArg): (r: Step<Instance>)
    ensures r.sm == Pop(sm, arg).sm
    ensures r.result.Ok? <==> Pop(sm, arg).result.Ok? && Pop(sm, arg).result.value.Some?
    ensures Pop(sm, arg).result == Ok(None) ==> r.result == Err(NoneAttribute)
    ensures r.result.Ok? ==> r.result.value == Pop(sm, arg).result.value.value.(attached := false)
  {
    var p := Pop(sm, arg);
    match p.result
    case Err(e) => Step(p.sm, Err(e))
    case Ok(None) => Step(p.sm, Err(NoneAttribute))
    case Ok(Some(x)) => Step(p.sm, Ok(x.(attached := false)))
  }

  // ---------------------------------------------------------------------
  // commit

  /** `sm.pre_commit(transaction)`: the deleted instances turn into delete
      queries (one `id__in` query for an object model, each instance for a
      structure model) and the dictionary of deleted is cleared. Returns the
      number of delete queries plus the number of pending instances. */
  function PreCommit(sm: SessionModel): (r: (SessionModel, nat))
    ensures r.0.deleted == [] && r.0.created == sm.created && r.0.modified == sm.modified && r.0.loaded == sm.loaded
    ensures r.0.meta == sm.meta
    ensures r.1 == |r.0.deleteQuery| + |sm.created| + |sm.modified|
    ensures |sm.deleted| == 0 ==> r.0 == sm
    ensures |sm.deleted| > 0 && sm.meta.modelType == ObjectModel ==>
      r.0.deleteQuery == sm.deleteQuery + [IdIn(ValueList(sm.deleted))]
    ensures |sm.deleted| > 0 && sm.meta.modelType == StructureModel ==>
      r.0.deleteQuery == sm.deleteQuery + Members(ValueList(sm.deleted))
    ensures |r.0.deleteQuery| >= |sm.deleteQuery|
  {
    var d := ValueList(sm.deleted);
    var s := if |d| > 0 then
      var q := if sm.meta.modelType == ObjectModel then [IdIn(d)] else Members(d);
      sm.(deleted := [], deleteQuery := sm.deleteQuery + q)
    else sm;
    (s, |s.deleteQuery| + Len(s))
  }

  function Members(d: seq<Instance>): (r: seq<DeleteQuery>)
    ensures |r| == |d|
    ensures forall i :: 0 <= i < |d| ==> r[i] == Member(d[i])
  {
    if |d| == 0 then [] else [Member(d[0])] + Members(d[1..])
  }

  /** A pre-commit leaves nothing to delete a second time: it is idempotent
      up to the query list, and the instance count falls by the deleted. */
  lemma PreCommitTwice(sm: SessionModel)
    ensures PreCommit(PreCommit(sm).0).0 == PreCommit(sm).0
    ensures Len(PreCommit(sm).0) == Len(sm) - |sm.deleted|
  {
  }

  /** `sm.server_update(instance, id)`: the server's answer for one instance.
      The instance is popped. A deleted one leaves the session (result
      `None`). Otherwise, when the server returns an id, the popped instance
      takes it (a persistent instance whose id differs raises) and becomes
      persistent under it; it is then re-added as unmodified. */
  function ServerUpdate(sm: SessionModel, inst: Instance, id: Value, guard: AddGuard): (r: Step<Option<Instance>>)
    ensures Pop(sm, AnInstance(inst)).result.Err? ==> r.result.Err? && r.sm == Pop(sm, AnInstance(inst)).sm
    ensures inst.state.deleted ==> r.sm == Pop(sm, AnInstance(inst)).sm
    ensures inst.state.deleted && Pop(sm, AnInstance(inst)).result.Ok? ==> r.result == Ok(None)
    ensures !inst.state.deleted && id != Nil && Pop(sm, AnInstance(inst)).result == Ok(None) ==>
      r.result == Err(NotInSession)
    ensures !inst.state.deleted && id != Nil && Pop(sm, AnInstance(inst)).result.Ok? && Pop(sm, AnInstance(inst)).result.value.Some? ==>
      var x := Pop(sm, AnInstance(inst)).result.value.value;
      (r.result == Err(IdChanged(x.id, id)) <==> inst.state.persistent && x.id != id)
    ensures r.result.Ok? && r.result.value.Some? && id != Nil ==>
      var x := r.result.value.value;
      x.id == id && x.state.persistent && x.state.iid == id && id in Keys(r.sm.loaded) + Keys(r.sm.modified)
    ensures r.result.Ok? ==> (r.result.value.Some? <==> !inst.state.deleted)
    ensures r.result.Ok? && !inst.state.deleted && id == Nil ==> r.result.value == Some(inst)
  {
    var p := Pop(sm, AnInstance(inst));
    match p.result
    case Err(e) => Step(p.sm, Err(e))
    case Ok(found) =>
      if inst.state.deleted then Step(p.sm, Ok(None))
      else if id != Nil then
        if found.None? then Step(p.sm, Err(NotInSession))
        else
          var x := found.value;
          if inst.state.persistent && x.id != id then Step(p.sm, Err(IdChanged(x.id, id)))
          else
            var y := if !inst.state.persistent then x.(id := id) else x;
            var z := y.(state := State(y.id, true, y.state.deleted));
            Lift(Add(p.sm, z, false, guard))
      else Lift(Add(p.sm, inst, false, guard))
  }

  /** On a valid container, a non-deleted instance of the model that the
      server confirms (with its id, or a persistent one without) ends up filed
      as loaded and nowhere else, under its new id, and its old id is filed
      nowhere; the container stays valid. The new id must not already be
      filed for another instance. */
  lemma ServerUpdateEndsLoaded(sm: SessionModel, inst: Instance, id: Value, guard: AddGuard)
    requires Valid(sm) && inst.meta == sm.meta && !inst.state.deleted
    requires id != Nil || inst.state.persistent
    requires id != Nil && id != inst.state.iid ==> Holders(sm, id) == 0
    requires ServerUpdate(sm, inst, id, guard).result.Ok?
    ensures var r := ServerUpdate(sm, inst, id, guard);
      && r.result.value.Some?
      && var x := r.result.value.value;
      && Holders(r.sm, x.state.iid) == 1 && Get(r.sm.loaded, x.state.iid) == Some(x)
      && (x.state.iid != inst.state.iid ==> Holders(r.sm, inst.state.iid) == 0)
      && Valid(r.sm)
  {
    var k := inst.state.iid;
    PopPreservesValid(sm, k);
    var p := PopId(sm, k);
    assert Pop(sm, AnInstance(inst)) == p;
    if id != Nil {
      var x0 := p.result.value.value;
      var y := if !inst.state.persistent then x0.(id := id) else x0;
      var z := y.(state := State(y.id, true, y.state.deleted));
      assert Holders(p.sm, id) == 0 by {
        if id != k {
          assert Holders(p.sm, id) == Holders(sm, id);
        }
      }
      FileLoaded(p.sm, z, guard);
    } else {
      FileLoaded(p.sm, inst, guard);
    }
  }

  /** Filing a persistent instance under an id no dictionary holds puts it in
      loaded alone and keeps the container valid. */
  lemma FileLoaded(sm: SessionModel, x: Instance, guard: AddGuard)
    requires Valid(sm) && Holders(sm, x.state.iid) == 0
    requires x.state.persistent && !x.state.deleted
    ensures var a := Add(sm, x, false, guard);
      && a.result == Ok(x) && Valid(a.sm)
      && Holders(a.sm, x.state.iid) == 1 && Get(a.sm.loaded, x.state.iid) == Some(x)
      && forall q :: q != x.state.iid ==> Holders(a.sm, q) == Holders(sm, q)
  {
    var j := x.state.iid;
    assert j !in Keys(sm.modified);
    var s2 := sm.(loaded := Put(sm.loaded, j, x));
    assert Add(sm, x, false, guard) == Step(s2, Ok(x));
    assert Keys(s2.loaded) == Keys(sm.loaded) + {j};
    forall q | q != j
      ensures Holders(s2, q) == Holders(sm, q)
    {
    }
  }

  function Lift(s: Step<Instance>): (r: Step<Option<Instance>>)
    ensures r.sm == s.sm
    ensures s.result.Ok? <==> r.result.Ok?
    ensures s.result.Ok? ==> r.result.value == Some(s.result.value)
    ensures s.result.Err? ==> r.result.error == s.result.error
  {
    match s.result
    case Ok(x) => Step(s.sm, Ok(Some(x)))
    case Err(e) => Step(s.sm, Err(e))
  }

  /** `sm.post_commit(ids)`: `server_update` for each instance of the
      container paired with the returned ids, in iteration order; the pairing
      stops at the shorter of the two. Returns the updated instances. */
  function PostCommit(sm: SessionModel, ids: seq<Value>, guard: AddGuard): (r: Step<seq<Instance>>)
    ensures r.sm.meta == sm.meta && r.sm.deleteQuery == sm.deleteQuery
    ensures r.result.Ok? ==> |r.result.value| == if |ids| < Len(sm) then |ids| else Len(sm)
    ensures r.result.Ok? ==> forall i :: 0 <= i < |r.result.value| ==>
      Updated(Iter(sm)[i], ids[i], r.result.value[i])
  {
    UpdateAll(sm, Iter(sm), ids, guard)
  }

  /** The loop of `post_commit` over a snapshot of the instances. */
  function UpdateAll(sm: SessionModel, insts: seq<Instance>, ids: seq<Value>, guard: AddGuard): (r: Step<seq<Instance>>)
    ensures r.sm.meta == sm.meta && r.sm.deleteQuery == sm.deleteQuery
    ensures r.result.Ok? ==> |r.result.value| == if |ids| < |insts| then |ids| else |insts|
    ensures r.result.Ok? ==> forall i :: 0 <= i < |r.result.value| ==>
      Updated(insts[i], ids[i], r.result.value[i])
    decreases |insts|
  {
    if |insts| == 0 || |ids| == 0 then Step(sm, Ok([]))
    else
      var u := ServerUpdate(sm, insts[0], ids[0], guard);
      match u.result
      case Err(e) => Step(u.sm, Err(e))
      case Ok(updated) =>
        var x := if updated.Some? then updated.value else insts[0].(state := insts[0].state.(deleted := true), attached := false);
        ServerUpdateUpdated(sm, insts[0], ids[0], guard);
        var rest := UpdateAll(u.sm, insts[1..], ids[1..], guard);
        match rest.result
        case Err(e) => Step(rest.sm, Err(e))
        case Ok(xs) =>
          UpdatedCons(insts, ids, x, xs);
          Step(rest.sm, Ok([x] + xs))
  }

  /** One step of the loop leaves the instance as `Updated` describes. */
  lemma ServerUpdateUpdated(sm: SessionModel, inst: Instance, id: Value, guard: AddGuard)
    requires ServerUpdate(sm, inst, id, guard).result.Ok?
    ensures var u := ServerUpdate(sm, inst, id, guard).result.value;
      Updated(inst, id, if u.Some? then u.value else inst.(state := inst.state.(deleted := true), attached := false))
  {
  }

  lemma UpdatedCons(insts: seq<Instance>, ids: seq<Value>, x: Instance, xs: seq<Instance>)
    requires 0 < |insts| && 0 < |ids| && |xs| < |insts| && |xs| < |ids|
    requires Updated(insts[0], ids[0], x)
    requires forall i :: 0 <= i < |xs| ==> Updated(insts[1..][i], ids[1..][i], xs[i])
    ensures forall i :: 0 <= i < |xs| + 1 ==> Updated(insts[i], ids[i], ([x] + xs)[i])
  {
    forall i | 1 <= i < |xs| + 1
      ensures Updated(insts[i], ids[i], ([x] + xs)[i])
    {
      assert ([x] + xs)[i] == xs[i - 1] && insts[1..][i - 1] == insts[i] && ids[1..][i - 1] == ids[i];
    }
  }

  /** How `post_commit` leaves an instance it paired with the id `id`: a
      deleted instance stays deleted and leaves the session; any other one
      becomes persistent under the server's id, or is kept as it was when the
      server gave no id. */
  predicate Updated(inst: Instance, id: Value, x: Instance) {
    && (inst.state.deleted ==> x.state.deleted && !x.attached)
    && (!inst.state.deleted && id != Nil ==> x.id == id && x.state.persistent && x.state.iid == id)
    && (!inst.state.deleted && id == Nil ==> x == inst)
  }

  /** The life of a single new instance through a commit: the server assigns
      it an id, after which the instance carries that id, is persistent and
      is filed as loaded under it, and the container holds nothing pending. */
  lemma CommitNewInstance(meta: Meta, inst: Instance, id: Value, guard: AddGuard)
    requires inst.meta == meta && !inst.state.persistent && !inst.state.deleted
    requires id != Nil
    ensures var sm := Empty(meta).(created := [Entry(inst.state.iid, inst)]);
      var r := PostCommit(sm, [id], guard);
      var x := inst.(id := id, state := State(id, true, false));
      && r.result == Ok([x])
      && r.sm == Empty(meta).(loaded := [Entry(id, x)])
      && Len(r.sm) == 0 && GetById(r.sm, id) == Some(x)
  {
    var sm := Empty(meta).(created := [Entry(inst.state.iid, inst)]);
    assert Iter(sm) == [inst];
    assert Holders(sm, inst.state.iid) == 1;
    var p := PopId(sm, inst.state.iid);
    assert p.sm == Empty(meta);
    assert p.result == Ok(Some(inst));
    var x := inst.(id := id, state := State(id, true, false));
    var a := Add(Empty(meta), x, false, guard);
    assert a.sm == Empty(meta).(loaded := [Entry(id, x)]) && a.result == Ok(x);
    var u := ServerUpdate(sm, inst, id, guard);
    assert u == Step(a.sm, Ok(Some(x)));
    assert UpdateAll(a.sm, [], [], guard) == Step(a.sm, Ok([]));
    var insts, ids := [inst], [id];
    assert insts[1..] == [] && ids[1..] == [];
    assert ServerUpdate(sm, insts[0], ids[0], guard) == u;
    var rest := UpdateAll(u.sm, insts[1..], ids[1..], guard);
    assert rest == Step(a.sm, Ok([]));
    assert [x] + [] == [x];
    assert UpdateAll(sm, insts, ids, guard) == Step(a.sm, Ok([x]));
  }

  /** Pre-commit followed by the server's answer for a container that only
      had deletions: the deleted instances become one query and leave the
      container. */
  lemma CommitDeletions(sm: SessionModel)
    requires |sm.created| == 0 && |sm.modified| == 0 && |sm.deleted| > 0
    requires sm.meta.modelType == ObjectModel
    ensures var (s, n) := PreCommit(sm);
      n == |sm.deleteQuery| + 1 && Len(s) == 0 && s.deleteQuery[|sm.deleteQuery|] == IdIn(ValueList(sm.deleted))
  {
  }
}
