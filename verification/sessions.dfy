/** `Session`, `Transaction` and `Manager.transaction` of
    `stdnet/orm/session.py`. A session keeps one `SessionModel` per model, in
    the order the models were first touched, and at most one open
    transaction. A transaction commits the session: it collects what is
    pending, hands it to the backend (whose answer is a parameter here),
    closes itself and feeds the answer back to the session models. */
module Sessions {
  import opened Values
  import opened Results
  import opened OrderedMaps
  import opened Base
  import opened Models
  import opened SessionModels

  /** A transaction. `attached` says whether `transaction.session` is still
      set; `hasResult` whether the `_result` attribute exists, which is what
      `is_open` tests. `post_commit` assigns `result`; whether that assignment
      creates `_result` is up to the server-operation base class, recorded in
      `tracksResult`. */
  datatype Transaction = Transaction(name: string, attached: bool, hasResult: bool, tracksResult: bool)

  /** A session: `sid` stands for the object's identity, `models` is the
      ordered dictionary of session models keyed by model. */
  datatype Session = Session(sid: nat, backend: string, models: OMap<Meta, SessionModel>,
                             transaction: Option<Transaction>, autocommit: bool)

  /** The outcome of a session operation, a raise keeping earlier changes. */
  datatype SessionStep<T> = SessionStep(s: Session, result: Result<T>)

  /** The outcome of a transaction operation. */
  datatype TxStep = TxStep(s: Session, t: Transaction, result: Result<Transaction>)

  const DefaultName: string := "transaction"

  /** Session models are filed under their own model, once each. */
  predicate WellFiled(s: Session) {
    Distinct(s.models) && forall i :: 0 <= i < |s.models| ==> s.models[i].value.meta == s.models[i].key
  }

  /** `Session(backend, autocommit)`: no models, no transaction. */
  function NewSession(sid: nat, backend: string, autocommit: bool): (s: Session)
    ensures WellFiled(s) && s.transaction.None? && |s.models| == 0
  {
    Session(sid, backend, [], None, autocommit)
  }

  // ---------------------------------------------------------------------
  // session models

  /** `session.model(meta)`: the session model of `meta`, created empty and
      appended when the session has none yet. */
  function ModelOf(s: Session, meta: Meta): (r: (Session, SessionModel))
    ensures Get(r.0.models, meta) == Some(r.1)
    ensures meta in Keys(s.models) ==> r.0 == s && Get(s.models, meta) == Some(r.1)
    ensures meta !in Keys(s.models) ==> r.1 == Empty(meta) && r.0 == s.(models := s.models + [Entry(meta, Empty(meta))])
    ensures WellFiled(s) ==> WellFiled(r.0) && r.1.meta == meta
    ensures Keys(r.0.models) == Keys(s.models) + {meta}
    ensures forall m :: m in Keys(s.models) ==> Get(r.0.models, m) == Get(s.models, m)
    ensures r.0.sid == s.sid && r.0.backend == s.backend && r.0.transaction == s.transaction && r.0.autocommit == s.autocommit
  {
    match Get(s.models, meta)
    case Some(sm) =>
      assert WellFiled(s) ==> sm.meta == meta by {
        if WellFiled(s) {
          FiledMeta(s, meta);
        }
      }
      (s, sm)
    case None =>
      var m := s.models + [Entry(meta, Empty(meta))];
      assert Distinct(s.models) ==> Distinct(m) by {
        if Distinct(s.models) {
          AppendDistinct(s.models, meta, Empty(meta));
        }
      }
      AppendGet(s.models, meta, Empty(meta));
      AppendKeys(s.models, meta, Empty(meta));
      (s.(models := m), Empty(meta))
  }

  lemma FiledMeta(s: Session, meta: Meta)
    requires WellFiled(s) && meta in Keys(s.models)
    ensures Get(s.models, meta).value.meta == meta
  {
    KeysIndex(s.models, meta);
    var i :| 0 <= i < |s.models| && s.models[i].key == meta;
    GetEntry(s.models, i);
  }

  lemma {:induction false} AppendDistinct<K, V>(o: OMap<K, V>, k: K, v: V)
    requires Distinct(o) && k !in Keys(o)
    ensures Distinct(o + [Entry(k, v)])
    ensures Keys(o + [Entry(k, v)]) == Keys(o) + {k}
  {
    if |o| > 0 {
      assert (o + [Entry(k, v)])[1..] == o[1..] + [Entry(k, v)];
      AppendDistinct(o[1..], k, v);
    } else {
      assert [Entry(k, v)][1..] == [];
    }
  }

  lemma {:induction false} AppendGet<K, V>(o: OMap<K, V>, k: K, v: V)
    requires k !in Keys(o)
    ensures Get(o + [Entry(k, v)], k) == Some(v)
  {
    if |o| > 0 {
      assert (o + [Entry(k, v)])[1..] == o[1..] + [Entry(k, v)];
      AppendGet(o[1..], k, v);
    } else {
      assert [Entry(k, v)][1..] == [];
    }
  }

  lemma {:induction false} AppendKeys<K, V>(o: OMap<K, V>, k: K, v: V)
    ensures Keys(o + [Entry(k, v)]) == Keys(o) + {k}
    ensures forall j :: j in Keys(o) ==> Get(o + [Entry(k, v)], j) == Get(o, j)
  {
    if |o| > 0 {
      assert (o + [Entry(k, v)])[1..] == o[1..] + [Entry(k, v)];
      AppendKeys(o[1..], k, v);
    } else {
      assert [Entry(k, v)][1..] == [];
    }
  }

  /** Fetching a session model twice creates it at most once. */
  lemma ModelOfIdempotent(s: Session, meta: Meta)
    ensures ModelOf(ModelOf(s, meta).0, meta) == ModelOf(s, meta)
  {
  }

  /** Writes a session model back under its model. */
  function Store(s: Session, meta: Meta, sm: SessionModel): (r: Session)
    ensures Get(r.models, meta) == Some(sm)
    ensures forall m :: m != meta ==> Get(r.models, m) == Get(s.models, m)
    ensures r.sid == s.sid && r.backend == s.backend && r.transaction == s.transaction && r.autocommit == s.autocommit
  {
    s.(models := Put(s.models, meta, sm))
  }

  /** `session.add(instance, modified)`: the instance is attached to the
      session and added to its model's session model. */
  function Add(s: Session, inst: Instance, modified: bool, guard: AddGuard): (r: SessionStep<Instance>)
    ensures inst.state.deleted <==> r.result.Err?
    ensures r.result.Ok? ==> r.result.value == inst.(attached := true)
    ensures r.result.Err? ==> r.result.error == StateDeleted && Get(r.s.models, inst.meta) == Some(ModelOf(s, inst.meta).1)
    ensures inst.meta in Keys(r.s.models)
    ensures forall m :: m != inst.meta ==> Get(r.s.models, m) == Get(s.models, m)
    ensures r.s.sid == s.sid && r.s.backend == s.backend && r.s.transaction == s.transaction && r.s.autocommit == s.autocommit
  {
    var (s1, sm) := ModelOf(s, inst.meta);
    var a := SessionModels.Add(sm, inst.(attached := true), modified, guard);
    SessionStep(Store(s1, inst.meta, a.sm), a.result)
  }

  /** `instance in session`: in the session model of its model, if any. */
  predicate Contains(s: Session, inst: Instance) {
    match Get(s.models, inst.meta)
    case Some(sm) => SessionModels.Contains(sm, inst)
    case None => false
  }

  /** A transient instance that was added is in the session afterwards, and
      a deleted one can never be added. */
  lemma AddContains(s: Session, inst: Instance, modified: bool, guard: AddGuard)
    requires WellFiled(s)
    ensures inst.state.deleted <==> Add(s, inst, modified, guard).result.Err?
    ensures !inst.state.deleted && (!inst.state.persistent || modified) ==> Contains(Add(s, inst, modified, guard).s, inst)
  {
    var (s1, sm) := ModelOf(s, inst.meta);
    var a := SessionModels.Add(sm, inst.(attached := true), modified, guard);
    assert Get(Store(s1, inst.meta, a.sm).models, inst.meta) == Some(a.sm);
  }

  /** What `session.delete` receives: an instance, or a query of the model
      created by the session `owner` whose `construct()` gives `constructed`. */
  datatype DeleteArg = DeleteInstance(inst: Instance) | DeleteQueryArg(meta: Meta, owner: nat, constructed: Option<nat>)

  /** What `session.delete` returns: the instance as the session model left
      it, or the constructed query. */
  datatype Deleted = DeletedInstance(inst: Instance) | QueuedQuery(q: Option<nat>)

  function ArgMeta(arg: DeleteArg): Meta {
    match arg
    case DeleteInstance(inst) => inst.meta
    case DeleteQueryArg(meta, _, _) => meta
  }

  /** `session.delete(instance)`. The session model is fetched first. A
      query made by another session raises; the constructed query, when there
      is one, is queued for deletion. An instance is deleted through its
      session model. */
  function Delete(s: Session, arg: DeleteArg): (r: SessionStep<Deleted>)
    ensures arg.DeleteQueryArg? && arg.owner != s.sid ==> r.result == Err(ForeignQuery) && r.s == ModelOf(s, arg.meta).0
    ensures arg.DeleteQueryArg? && arg.owner == s.sid ==> r.result == Ok(QueuedQuery(arg.constructed))
    ensures arg.DeleteQueryArg? && arg.owner == s.sid && arg.constructed.Some? ==>
      var sm := ModelOf(s, arg.meta).1;
      Get(r.s.models, arg.meta) == Some(sm.(deleteQuery := sm.deleteQuery + [Constructed(arg.constructed.value)]))
    ensures arg.DeleteInstance? ==> var (s1, sm) := ModelOf(s, arg.inst.meta);
      var d := SessionModels.Delete(sm, arg.inst);
      r.s == Store(s1, arg.inst.meta, d.sm) && (r.result.Ok? <==> d.result.Ok?)
      && (r.result.Ok? ==> r.result.value == DeletedInstance(d.result.value))
  {
    var (s1, sm) := ModelOf(s, ArgMeta(arg));
    match arg
    case DeleteQueryArg(_, owner, q) =>
      if owner != s.sid then SessionStep(s1, Err(ForeignQuery))
      else if q.Some? then
        SessionStep(Store(s1, ArgMeta(arg), sm.(deleteQuery := sm.deleteQuery + [Constructed(q.value)])), Ok(QueuedQuery(q)))
      else SessionStep(s1, Ok(QueuedQuery(q)))
    case DeleteInstance(inst) =>
      var d := SessionModels.Delete(sm, inst);
      match d.result
      case Ok(x) => SessionStep(Store(s1, arg.inst.meta, d.sm), Ok(DeletedInstance(x)))
      case Err(e) => SessionStep(Store(s1, arg.inst.meta, d.sm), Err(e))
  }

  /** Deleting an instance through the session, when the session model of
      its model is valid and files every instance under its own id, always
      succeeds: a persistent instance ends marked deleted and filed as deleted
      (so it is still in the session, to be sent); a transient one leaves the
      session and is detached. */
  lemma DeleteFilesDeleted(s: Session, inst: Instance)
    requires WellFiled(s)
    requires var sm := ModelOf(s, inst.meta).1;
      Valid(sm) && WellKeyed(sm.created) && WellKeyed(sm.modified) && WellKeyed(sm.loaded) && WellKeyed(sm.deleted)
    ensures var r := Delete(s, DeleteInstance(inst));
      r.result.Ok? && r.result.value.DeletedInstance?
    ensures var r := Delete(s, DeleteInstance(inst));
      var x := r.result.value.inst;
      && (x.state.persistent ==>
            x.state.deleted && Contains(r.s, inst) && inst.state.iid in Keys(Get(r.s.models, inst.meta).value.deleted))
      && (!x.state.persistent ==> !Contains(r.s, inst) && !x.attached)
  {
    DeleteSpec(ModelOf(s, inst.meta).1, inst);
  }

  /** `session.expunge(meta)`: drops the session model of `meta` (returning
      it), or, without a model, every session model. */
  function Expunge(s: Session, meta: Option<Meta>): (r: (Session, Option<SessionModel>))
    ensures meta.None? ==> r.0 == s.(models := []) && r.1.None?
    ensures meta.Some? ==> r.0 == s.(models := Remove(s.models, meta.value)) && r.1 == Get(s.models, meta.value)
  {
    match meta
    case None => (s.(models := []), None)
    case Some(m) => (s.(models := Remove(s.models, m)), Get(s.models, m))
  }

  /** After expunging a model none of its instances is in the session; after
      expunging everything nothing is. */
  lemma ExpungeForgets(s: Session, meta: Option<Meta>, inst: Instance)
    requires meta.Some? ==> inst.meta == meta.value
    ensures !Contains(Expunge(s, meta).0, inst)
  {
  }

  /** `session.get(model, id)`. The session model is checked with `if sm:`,
      which asks for its length, so a session model holding only loaded
      instances answers `None`. */
  function GetInstance(s: Session, meta: Meta, id: Value): (r: Option<Instance>)
    ensures r.Some? ==> meta in Keys(s.models) && Len(Get(s.models, meta).value) > 0
    ensures meta in Keys(s.models) && Len(Get(s.models, meta).value) > 0 ==> r == GetById(Get(s.models, meta).value, id)
  {
    match Get(s.models, meta)
    case Some(sm) => if Len(sm) > 0 then GetById(sm, id) else None
    case None => None
  }

  /** `session.get` with the test meant as `if sm is not None`. */
  function GetInstanceIntended(s: Session, meta: Meta, id: Value): (r: Option<Instance>)
    ensures meta !in Keys(s.models) ==> r.None?
    ensures meta in Keys(s.models) ==> r == GetById(Get(s.models, meta).value, id)
  {
    match Get(s.models, meta)
    case Some(sm) => GetById(sm, id)
    case None => None
  }

  /** The length test loses loaded instances: with nothing pending, an
      instance the session loaded is not returned by `get`, although the
      session model holds it. */
  lemma GetMissesLoaded(s: Session, meta: Meta, id: Value, inst: Instance)
    requires Get(s.models, meta) == Some(Empty(meta).(loaded := [Entry(id, inst)]))
    ensures GetInstance(s, meta, id) == None
    ensures GetInstanceIntended(s, meta, id) == Some(inst)
  {
  }

  /** The intended lookup agrees with the written one whenever something is
      pending, and finds every loaded instance. */
  lemma GetIntendedFindsLoaded(s: Session, meta: Meta, id: Value)
    requires meta in Keys(s.models)
    ensures id in Keys(Get(s.models, meta).value.loaded) ==> GetInstanceIntended(s, meta, id).Some?
    ensures Len(Get(s.models, meta).value) > 0 ==> GetInstanceIntended(s, meta, id) == GetInstance(s, meta, id)
  {
  }

  /** `session.server_update(instance, id)`: attach the instance and let its
      session model apply the server's answer. */
  function ServerUpdate(s: Session, inst: Instance, id: Value, guard: AddGuard): (r: SessionStep<Option<Instance>>)
    ensures r.result.Ok? ==> (r.result.value.Some? <==> !inst.state.deleted)
    ensures r.result.Ok? && r.result.value.Some? && id != Nil ==>
      r.result.value.value.id == id && r.result.value.value.state.persistent
    ensures inst.meta in Keys(r.s.models)
    ensures forall m :: m != inst.meta ==> Get(r.s.models, m) == Get(s.models, m)
    ensures r.s.sid == s.sid && r.s.backend == s.backend && r.s.transaction == s.transaction && r.s.autocommit == s.autocommit
  {
    var (s1, sm) := ModelOf(s, inst.meta);
    var u := SessionModels.ServerUpdate(sm, inst.(attached := true), id, guard);
    SessionStep(Store(s1, inst.meta, u.sm), u.result)
  }

  /** On a session whose session model for the instance's model is valid, a
      successful `server_update` of a non-deleted instance (with an id the
      session model does not yet file for another instance) leaves the
      updated instance filed as loaded, alone under its id, in the session
      model of its model. */
  lemma ServerUpdateFilesLoaded(s: Session, inst: Instance, id: Value, guard: AddGuard)
    requires WellFiled(s) && Valid(ModelOf(s, inst.meta).1)
    requires !inst.state.deleted && (id != Nil || inst.state.persistent)
    requires id != Nil && id != inst.state.iid ==> Holders(ModelOf(s, inst.meta).1, id) == 0
    requires ServerUpdate(s, inst, id, guard).result.Ok?
    ensures var r := ServerUpdate(s, inst, id, guard);
      && r.result.value.Some?
      && var x := r.result.value.value;
      && var sm := Get(r.s.models, inst.meta).value;
      && Get(sm.loaded, x.state.iid) == Some(x) && Holders(sm, x.state.iid) == 1 && Valid(sm)
  {
    ServerUpdateEndsLoaded(ModelOf(s, inst.meta).1, inst.(attached := true), id, guard);
  }

  // ---------------------------------------------------------------------
  // transactions

  /** `transaction.is_open`: no `_result` attribute yet. */
  predicate IsOpen(t: Transaction) {
    !t.hasResult
  }

  /** `session.begin(name)`: a new attached transaction named `name`, or
      `transaction` when the name is missing or empty; raises when one is
      already begun. */
  function Begin(s: Session, name: Option<string>, tracksResult: bool): (r: SessionStep<Transaction>)
    ensures s.transaction.Some? <==> r.result.Err?
    ensures r.result.Err? ==> r.s == s && r.result.error.InvalidTransaction?
    ensures r.result.Ok? ==> r.s == s.(transaction := Some(r.result.value))
    ensures r.result.Ok? ==> r.result.value.attached && IsOpen(r.result.value)
    ensures r.result.Ok? ==> r.result.value.name == if name.Some? && |name.value| > 0 then name.value else DefaultName
  {
    if s.transaction.Some? then SessionStep(s, Err(InvalidTransaction("A transaction is already begun.")))
    else
      var n := if name.Some? && |name.value| > 0 then name.value else DefaultName;
      var t := Transaction(n, true, false, tracksResult);
      SessionStep(s.(transaction := Some(t)), Ok(t))
  }

  /** A session holds one transaction at a time. */
  lemma BeginTwice(s: Session, n1: Option<string>, n2: Option<string>, tr: bool)
    requires s.transaction.None?
    ensures Begin(s, n1, tr).result.Ok?
    ensures Begin(Begin(s, n1, tr).s, n2, tr) == SessionStep(Begin(s, n1, tr).s, Err(InvalidTransaction("A transaction is already begun.")))
  {
  }

  /** The loop of `Transaction.pre_commit` over the session models: each is
      pre-committed and the counts are added up. */
  function PreCommitAll(models: OMap<Meta, SessionModel>): (r: (OMap<Meta, SessionModel>, nat))
    ensures |r.0| == |models|
    ensures forall i :: 0 <= i < |models| ==> r.0[i] == Entry(models[i].key, PreCommit(models[i].value).0)
  {
    if |models| == 0 then ([], 0)
    else
      var (rest, n) := PreCommitAll(models[1..]);
      var (sm, c) := PreCommit(models[0].value);
      ([Entry(models[0].key, sm)] + rest, c + n)
  }

  /** A session model has something to send exactly when it has pending
      instances or delete queries. */
  lemma PreCommitZero(sm: SessionModel)
    ensures PreCommit(sm).1 == 0 <==> Len(sm) == 0 && |sm.deleteQuery| == 0
  {
  }

  /** The backend is contacted exactly when some session model has pending
      instances or delete queries. */
  lemma {:induction false} PreCommitAllZero(models: OMap<Meta, SessionModel>)
    ensures PreCommitAll(models).1 == 0 <==>
      forall i :: 0 <= i < |models| ==> Len(models[i].value) == 0 && |models[i].value.deleteQuery| == 0
  {
    if |models| > 0 {
      PreCommitAllZero(models[1..]);
      PreCommitZero(models[0].value);
      if PreCommitAll(models).1 == 0 {
        forall i | 0 <= i < |models|
          ensures Len(models[i].value) == 0 && |models[i].value.deleteQuery| == 0
        {
          if i > 0 {
            assert models[1..][i - 1] == models[i];
          }
        }
      }
      if forall i :: 0 <= i < |models| ==> Len(models[i].value) == 0 && |models[i].value.deleteQuery| == 0 {
        forall i | 0 <= i < |models[1..]|
          ensures Len(models[1..][i].value) == 0 && |models[1..][i].value.deleteQuery| == 0
        {
          assert models[1..][i] == models[i + 1];
        }
      }
    }
  }

  /** The loop of `close` clearing the delete queries of every session model. */
  function ClearQueries(models: OMap<Meta, SessionModel>): (r: OMap<Meta, SessionModel>)
    ensures |r| == |models|
    ensures forall i :: 0 <= i < |models| ==> r[i] == Entry(models[i].key, models[i].value.(deleteQuery := []))
  {
    if |models| == 0 then [] else [Entry(models[0].key, models[0].value.(deleteQuery := []))] + ClearQueries(models[1..])
  }

  /** `transaction.close()`: clears every delete query, and unlinks the
      transaction from its session. A detached transaction has no session to
      iterate. */
  function Close(s: Session, t: Transaction): (r: TxStep)
    ensures !t.attached ==> r == TxStep(s, t, Err(NoneNotIterable))
    ensures t.attached ==> r.result == Ok(r.t) && !r.t.attached && r.s.transaction.None?
    ensures t.attached ==> r.s.models == ClearQueries(s.models) && r.t == t.(attached := false)
  {
    if !t.attached then TxStep(s, t, Err(NoneNotIterable))
    else
      var t1 := t.(attached := false);
      TxStep(s.(models := ClearQueries(s.models), transaction := None), t1, Ok(t1))
  }

  /** Whether the backend reports a save or a delete for a model. */
  datatype Action = SaveAction | DeleteAction

  /** One element of the backend's response: a model, the ids it reports and
      the action it performed. */
  datatype Reply = Reply(meta: Meta, ids: seq<Value>, action: Action)

  /** Whether some reply saves ids of model `m`. */
  predicate SavesFor(replies: seq<Reply>, m: Meta) {
    exists i :: 0 <= i < |replies| && replies[i].meta == m && |replies[i].ids| > 0 && replies[i].action == SaveAction
  }

  lemma SavesForTail(replies: seq<Reply>)
    requires |replies| > 0
    ensures forall m :: SavesFor(replies[1..], m) ==> SavesFor(replies, m)
  {
    forall m | SavesFor(replies[1..], m)
      ensures SavesFor(replies, m)
    {
      var i :| 0 <= i < |replies[1..]| && replies[1..][i].meta == m && |replies[1..][i].ids| > 0 && replies[1..][i].action == SaveAction;
      assert replies[i + 1] == replies[1..][i];
    }
  }

  /** One pass of the loop of `post_commit` over the response: a reply
      without ids is skipped; any other reply fetches (or creates) the session
      model; the ids of a save go to `SessionModel.post_commit`, those of a
      delete only to the signal. */
  function ApplyOne(s: Session, rp: Reply, guard: AddGuard): (r: SessionStep<()>)
    ensures r.s.sid == s.sid && r.s.backend == s.backend && r.s.transaction == s.transaction && r.s.autocommit == s.autocommit
    ensures forall m :: m != rp.meta || |rp.ids| == 0 || rp.action == DeleteAction ==>
      ModelOf(r.s, m).1 == ModelOf(s, m).1
    ensures forall m :: m in Keys(s.models) && (m != rp.meta || |rp.ids| == 0 || rp.action == DeleteAction) ==>
      Get(r.s.models, m) == Get(s.models, m)
    ensures |rp.ids| > 0 && rp.action == SaveAction ==>
      var p := PostCommit(ModelOf(s, rp.meta).1, rp.ids, guard);
      Get(r.s.models, rp.meta) == Some(p.sm) && (r.result.Ok? <==> p.result.Ok?)
    ensures |rp.ids| == 0 || rp.action == DeleteAction ==> r.result.Ok?
  {
    if |rp.ids| == 0 then SessionStep(s, Ok(()))
    else
      var (s1, sm) := ModelOf(s, rp.meta);
      forall m | m != rp.meta ensures ModelOf(s1, m).1 == ModelOf(s, m).1 {
        ModelOfSameGet(s1, s, m);
      }
      if rp.action == DeleteAction then SessionStep(s1, Ok(()))
      else
        var p := PostCommit(sm, rp.ids, guard);
        var s2 := Store(s1, rp.meta, p.sm);
        forall m | m != rp.meta ensures ModelOf(s2, m).1 == ModelOf(s, m).1 {
          ModelOfSameGet(s2, s1, m);
        }
        SessionStep(s2, if p.result.Ok? then Ok(()) else Err(p.result.error))
  }

  /** The loop of `post_commit` over the response, reply by reply, stopping
      at the first raise. */
  function ApplyReplies(s: Session, replies: seq<Reply>, guard: AddGuard): (r: SessionStep<()>)
    ensures |replies| == 0 ==> r == SessionStep(s, Ok(()))
    ensures r.s.sid == s.sid && r.s.backend == s.backend && r.s.transaction == s.transaction && r.s.autocommit == s.autocommit
    ensures forall m :: m in Keys(s.models) && !SavesFor(replies, m) ==> Get(r.s.models, m) == Get(s.models, m)
    decreases |replies|
  {
    if |replies| == 0 then SessionStep(s, Ok(()))
    else
      SavesForTail(replies);
      var x := ApplyOne(s, replies[0], guard);
      if x.result.Err? then x else ApplyReplies(x.s, replies[1..], guard)
  }

  /** The replies are applied one after another: applying `a + b` applies
      `a`, and then, unless that raised, `b` to the session `a` left. */
  lemma {:induction false} ApplyRepliesAppend(s: Session, a: seq<Reply>, b: seq<Reply>, guard: AddGuard)
    ensures var x := ApplyReplies(s, a, guard);
      ApplyReplies(s, a + b, guard) == if x.result.Ok? then ApplyReplies(x.s, b, guard) else x
    decreases |a|
  {
    if |a| == 0 {
      assert a + b == b;
    } else {
      assert (a + b)[0] == a[0] && (a + b)[1..] == a[1..] + b;
      ApplyRepliesAppend(ApplyOne(s, a[0], guard).s, a[1..], b, guard);
    }
  }

  /** The session model a session would hand out for `m` depends only on
      what the session files under `m`. */
  lemma ModelOfSameGet(a: Session, b: Session, m: Meta)
    requires Get(a.models, m) == Get(b.models, m)
    ensures ModelOf(a, m).1 == ModelOf(b, m).1
  {
  }

  /** When exactly one reply saves ids for model `m` and the replies are
      applied without an error, the session model of `m` ends as
      `SessionModel.post_commit` of those ids leaves the session model the
      session had for `m` before (an empty one when it had none). */
  lemma {:induction false} ApplyRepliesSaves(s: Session, replies: seq<Reply>, guard: AddGuard, k: nat)
    requires k < |replies| && replies[k].action == SaveAction && |replies[k].ids| > 0
    requires forall j :: 0 <= j < |replies| && j != k && replies[j].meta == replies[k].meta ==>
      |replies[j].ids| == 0 || replies[j].action == DeleteAction
    requires ApplyReplies(s, replies, guard).result.Ok?
    ensures Get(ApplyReplies(s, replies, guard).s.models, replies[k].meta)
      == Some(PostCommit(ModelOf(s, replies[k].meta).1, replies[k].ids, guard).sm)
    decreases |replies|
  {
    var m := replies[k].meta;
    var x := ApplyOne(s, replies[0], guard);
    if k == 0 {
      forall i | 0 <= i < |replies[1..]|
        ensures !(replies[1..][i].meta == m && |replies[1..][i].ids| > 0 && replies[1..][i].action == SaveAction)
      {
        assert replies[1..][i] == replies[i + 1];
      }
    } else {
      assert replies[1..][k - 1] == replies[k];
      forall j | 0 <= j < |replies[1..]| && j != k - 1 && replies[1..][j].meta == m
        ensures |replies[1..][j].ids| == 0 || replies[1..][j].action == DeleteAction
      {
        assert replies[1..][j] == replies[j + 1];
      }
      ApplyRepliesSaves(x.s, replies[1..], guard, k - 1);
    }
  }

  /** `transaction.post_commit(response)`: records the result, closes the
      transaction, then applies the response, if any, to the session. */
  function TxPostCommit(s: Session, t: Transaction, response: Option<seq<Reply>>, guard: AddGuard): (r: TxStep)
    ensures !t.attached ==> r.result == Err(NoneNotIterable)
    ensures r.t == t.(hasResult := t.tracksResult, attached := false)
    ensures t.attached ==> r.s.transaction.None?
    ensures t.attached && (response.None? || |response.value| == 0) ==>
      r.result.Ok? && r.s == Close(s, t).s
  {
    var t1 := t.(hasResult := t.tracksResult);
    var c := Close(s, t1);
    if c.result.Err? then c
    else if response.None? || |response.value| == 0 then c
    else
      var a := ApplyReplies(c.s, response.value, guard);
      TxStep(a.s, c.t, if a.result.Ok? then Ok(c.t) else Err(a.result.error))
  }

  /** Through a whole `post_commit`: with exactly one reply saving ids for
      model `m` and no raise, the session model of `m` ends as
      `SessionModel.post_commit` leaves the one the closed session had. */
  lemma TxPostCommitSaves(s: Session, t: Transaction, replies: seq<Reply>, guard: AddGuard, k: nat)
    requires t.attached
    requires k < |replies| && replies[k].action == SaveAction && |replies[k].ids| > 0
    requires forall j :: 0 <= j < |replies| && j != k && replies[j].meta == replies[k].meta ==>
      |replies[j].ids| == 0 || replies[j].action == DeleteAction
    requires TxPostCommit(s, t, Some(replies), guard).result.Ok?
    ensures var closed := s.(models := ClearQueries(s.models), transaction := None);
      Get(TxPostCommit(s, t, Some(replies), guard).s.models, replies[k].meta)
        == Some(PostCommit(ModelOf(closed, replies[k].meta).1, replies[k].ids, guard).sm)
  {
    ApplyRepliesSaves(Close(s, t.(hasResult := t.tracksResult)).s, replies, guard, k);
  }

  /** `transaction.commit()`: a closed transaction raises; otherwise the
      session is pre-committed and, when something is to be sent, the
      backend executes it and answers with `response`; with nothing to send
      the transaction just closes. */
  function TxCommit(s: Session, t: Transaction, response: Option<seq<Reply>>, guard: AddGuard): (r: TxStep)
    ensures !IsOpen(t) ==> r == TxStep(s, t, Err(InvalidTransaction("Invalid operation. Transaction already closed.")))
    ensures IsOpen(t) && !t.attached ==> r == TxStep(s, t, Err(NoneNotIterable))
    ensures IsOpen(t) && t.attached ==> !r.t.attached && r.s.transaction.None? && r.t.hasResult == t.tracksResult
    ensures IsOpen(t) && t.attached && PreCommitAll(s.models).1 == 0 ==> r.result.Ok?
  {
    if !IsOpen(t) then TxStep(s, t, Err(InvalidTransaction("Invalid operation. Transaction already closed.")))
    else if !t.attached then TxStep(s, t, Err(NoneNotIterable))
    else
      var (models, sent) := PreCommitAll(s.models);
      var s1 := s.(models := models);
      if sent > 0 then TxPostCommit(s1, t, response, guard)
      else TxPostCommit(s1, t, None, guard)
  }

  /** A transaction commits at most once: whatever the first commit did, a
      second one raises, either because the transaction is closed or because
      it no longer has a session. */
  lemma CommitOnce(s: Session, t: Transaction, r1: Option<seq<Reply>>, r2: Option<seq<Reply>>, guard: AddGuard)
    requires IsOpen(t) && t.attached
    ensures var c := TxCommit(s, t, r1, guard);
      TxCommit(c.s, c.t, r2, guard).result.Err?
  {
  }

  /** A commit with nothing pending needs no backend and no response: the
      transaction just closes, leaving the session models as they were. */
  lemma CommitNothing(s: Session, t: Transaction, response: Option<seq<Reply>>, guard: AddGuard)
    requires IsOpen(t) && t.attached
    requires forall i :: 0 <= i < |s.models| ==> Len(s.models[i].value) == 0 && |s.models[i].value.deleteQuery| == 0
    ensures TxCommit(s, t, response, guard) == TxCommit(s, t, None, guard)
    ensures TxCommit(s, t, response, guard).result.Ok?
  {
    PreCommitAllZero(s.models);
  }

  /** `transaction.rollback()`. The guard `if self.session:` asks for the
      session's truth value, which is its length, the number of session
      models: only an attached transaction whose session holds at least one
      session model expunges them all and unlinks itself. A detached
      transaction, or one whose session is empty, does nothing, and then the
      session keeps the transaction as begun. */
  function Rollback(s: Session, t: Transaction): (r: (Session, Transaction))
    ensures r.1.name == t.name
    ensures t.attached && |s.models| > 0 ==>
      |r.0.models| == 0 && r.0.transaction.None? && !r.1.attached
    ensures !t.attached || |s.models| == 0 ==> r == (s, t)
    ensures r.0.sid == s.sid && r.0.backend == s.backend && r.0.autocommit == s.autocommit
  {
    if t.attached && |s.models| > 0 then (s.(models := [], transaction := None), t.(attached := false)) else (s, t)
  }

  lemma RollbackIdempotent(s: Session, t: Transaction)
    ensures var (s1, t1) := Rollback(s, t); Rollback(s1, t1) == (s1, t1)
  {
  }

  /** A rollback on a session that never received an instance leaves the
      transaction begun, so the session refuses to begin another one. */
  lemma RollbackEmptyKeepsTransaction(s: Session, t: Transaction, name: Option<string>, tracksResult: bool)
    requires s.transaction == Some(t) && t.attached && |s.models| == 0
    ensures Rollback(s, t).0.transaction == Some(t)
    ensures Begin(Rollback(s, t).0, name, tracksResult).result.Err?
  {
  }

  /** `transaction.rollback()` with the guard meant as
      `if self.session is not None:`. */
  function RollbackIntended(s: Session, t: Transaction): (r: (Session, Transaction))
    ensures r.1.name == t.name && !r.1.attached
    ensures t.attached ==> |r.0.models| == 0 && r.0.transaction.None?
    ensures !t.attached ==> r == (s, t)
    ensures r.0.sid == s.sid && r.0.backend == s.backend && r.0.autocommit == s.autocommit
  {
    if t.attached then (s.(models := [], transaction := None), t.(attached := false)) else (s, t)
  }

  /** With the intended guard, rolling back the transaction of a session
      always lets the session begin a new one, and it agrees with the
      written rollback whenever the session holds a session model. */
  lemma RollbackIntendedFreesSession(s: Session, t: Transaction, name: Option<string>, tracksResult: bool)
    requires s.transaction == Some(t) && t.attached
    ensures Begin(RollbackIntended(s, t).0, name, tracksResult).result.Ok?
    ensures |s.models| > 0 ==> RollbackIntended(s, t) == Rollback(s, t)
  {
  }

  /** Leaving a `with transaction:` block. Without an exception the
      transaction commits, and a failing commit is rolled back and re-raised;
      with an exception the transaction is rolled back (and the exception
      goes on). */
  function Exit(s: Session, t: Transaction, raised: bool, response: Option<seq<Reply>>, guard: AddGuard): (r: TxStep)
    ensures raised ==> r == TxStep(Rollback(s, t).0, Rollback(s, t).1, Ok(Rollback(s, t).1))
    ensures !raised ==> r.result == TxCommit(s, t, response, guard).result
    ensures !raised && TxCommit(s, t, response, guard).result.Ok? ==> r == TxCommit(s, t, response, guard)
    ensures !raised && TxCommit(s, t, response, guard).result.Err? ==>
      (r.s, r.t) == Rollback(TxCommit(s, t, response, guard).s, TxCommit(s, t, response, guard).t)
  {
    if raised then
      var (s1, t1) := Rollback(s, t);
      TxStep(s1, t1, Ok(t1))
    else
      var c := TxCommit(s, t, response, guard);
      if c.result.Ok? then c
      else
        var (s1, t1) := Rollback(c.s, c.t);
        TxStep(s1, t1, c.result)
  }

  /** An exception inside the block discards everything the session held,
      when it held a session model at all. */
  lemma ExitOnRaiseDiscards(s: Session, t: Transaction, response: Option<seq<Reply>>, guard: AddGuard)
    requires t.attached && |s.models| > 0
    ensures var r := Exit(s, t, true, response, guard);
      |r.s.models| == 0 && r.s.transaction.None? && !r.t.attached
  {
  }

  /** An exception inside the block of a transaction whose session is still
      empty leaves the session and the transaction exactly as they were. */
  lemma ExitOnRaiseEmpty(s: Session, t: Transaction, response: Option<seq<Reply>>, guard: AddGuard)
    requires s.transaction == Some(t) && t.attached && |s.models| == 0
    ensures var r := Exit(s, t, true, response, guard);
      r.s == s && r.t == t && r.t.attached && r.s.transaction == Some(t)
  {
  }

  /** `session.commit()`: without a transaction, a session that is not in
      autocommit mode begins one (named `transaction`) and commits it; an
      autocommit session raises. */
  function Commit(s: Session, response: Option<seq<Reply>>, tracksResult: bool, guard: AddGuard): (r: SessionStep<Transaction>)
    ensures s.transaction.None? && s.autocommit ==> r == SessionStep(s, Err(InvalidTransaction("No transaction was started")))
    ensures s.transaction.None? && !s.autocommit ==>
      var t := Transaction(DefaultName, true, false, tracksResult);
      var c := TxCommit(s.(transaction := Some(t)), t, response, guard);
      r == SessionStep(c.s, c.result)
    ensures s.transaction.Some? ==>
      var c := TxCommit(s, s.transaction.value, response, guard);
      r == SessionStep(c.s, c.result)
  {
    if s.transaction.None? && s.autocommit then SessionStep(s, Err(InvalidTransaction("No transaction was started")))
    else
      var b := if s.transaction.None? then Begin(s, None, tracksResult).s else s;
      var c := TxCommit(b, b.transaction.value, response, guard);
      SessionStep(c.s, c.result)
  }

  /** A session outside autocommit mode commits even without a transaction,
      and is left without one. */
  lemma CommitAutoBegins(s: Session, response: Option<seq<Reply>>, tracksResult: bool, guard: AddGuard)
    requires s.transaction.None? && !s.autocommit
    ensures Commit(s, response, tracksResult, guard).s.transaction.None?
  {
  }

  // ---------------------------------------------------------------------
  // Manager.transaction

  /** `manager.transaction(*models)`: each model's manager must have a
      backend (else `ModelNotRegistered`) equal to this manager's when this
      one has a backend (else `InvalidTransaction`); then a session on the
      manager's backend begins a transaction, which raises
      `ModelNotRegistered` when the manager itself has no backend. */
  function ManagerTransaction(backend: Option<string>, models: seq<Option<string>>, sid: nat, tracksResult: bool)
    : (r: Result<(Session, Transaction)>)
    ensures r.Ok? <==> backend.Some? && forall i :: 0 <= i < |models| ==> models[i] == backend
    ensures r.Ok? ==> (r.value.0.backend == backend.value && r.value.0.transaction == Some(r.value.1)
      && r.value.1.attached && r.value.1.name == DefaultName && |r.value.0.models| == 0)
  {
    match CheckBackends(backend, models)
    case Some(e) => Err(e)
    case None =>
      if backend.None? then Err(ModelNotRegistered)
      else
        var s := NewSession(sid, backend.value, false);
        var b := Begin(s, None, tracksResult);
        Ok((b.s, b.result.value))
  }

  /** The loop of `Manager.transaction`: the error of the first model that
      fails a check. */
  function CheckBackends(backend: Option<string>, models: seq<Option<string>>): (r: Option<Error>)
    ensures r.None? <==> forall i :: 0 <= i < |models| ==> models[i].Some? && (backend.Some? ==> models[i] == backend)
    ensures r.Some? ==> r.value == ModelNotRegistered || r.value.InvalidTransaction?
  {
    if |models| == 0 then None
    else if models[0].None? then Some(ModelNotRegistered)
    else if backend.Some? && backend != models[0] then Some(InvalidTransaction("Models are registered with a different databases. Cannot create transaction"))
    else CheckBackends(backend, models[1..])
  }

  /** The checks run in the order of the models: an unregistered model
      reported before any mismatch raises `ModelNotRegistered`. */
  lemma {:induction false} CheckBackendsOrder(backend: Option<string>, models: seq<Option<string>>, k: nat)
    requires k < |models| && models[k].None?
    requires forall i :: 0 <= i < k ==> models[i].Some? && (backend.Some? ==> models[i] == backend)
    ensures CheckBackends(backend, models) == Some(ModelNotRegistered)
  {
    if k > 0 {
      CheckBackendsOrder(backend, models[1..], k - 1);
    }
  }
}
