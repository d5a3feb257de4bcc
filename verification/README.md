# python-stdnet session engine in Dafny

This project models the core of python-stdnet, an object mapper for a
key-value store. The model covers four parts of the library:

- **Model metadata** (`Metaclass`, `StdNetType`, `get_fields`,
  `meta_options`). A model class is registered into a `_meta`. It gets a
  lower-cased name, an app label and an automatic `id` primary key. It also
  gets the store keys derived from its base key.
- **Model instances** (`ModelMixin`, `StdModel`, `from_uuid`,
  `model_to_dict`). This covers equality by class and id, the `uuid`, keyword
  construction, `todict` and the delete guard.
- **The session** (`SessionModel`, `Session`, `Transaction`,
  `Manager.transaction`).
  - A `SessionModel` is the staging area of one model class. It holds four
    insertion-ordered dictionaries keyed by instance id (`iid`): new,
    modified, loaded and deleted. It also holds a list of pending delete
    queries.
  - A `Session` maps each `_meta` to its session model.
  - A `Transaction` counts the pending work (`pre_commit`). It hands the
    session to a backend and applies the backend's reply (`post_commit`).
    Finally it closes or rolls back.
- **The sequence helpers of `stdnet/utils`**: `grouper`, `_format_int`,
  `format_int`, `flat_mapping`, `flat2d` and `flatzset`.

Modelling choices:

- Dictionaries are sequences of entries (`OrderedMaps.OMap`). An
  `OrderedDict` keeps insertion order, and so does the model. A plain Python 2
  `dict` has an arbitrary but fixed iteration order; the model fixes it to
  insertion order (see Left out for what depends on it).
- Python values are the `Values.Value` datatype. Its `Truthy` predicate is
  Python's truth test.
- Exceptions are `Results.Err`.
- An operation that mutates and then raises returns both the partly
  mutated state and the error (`Step`, `SessionStep`, `TxStep`). The partial
  change stays visible, as it does in the source.
- The backend round trip is a parameter. `Transaction.commit` takes the reply
  `execute_session` would produce.

Files:

- `strings.dfy`: `str()` of an integer, ASCII `lower`, `split`, `join`.
- `values.dfy`, `results.dfy`, `ordered_maps.dfy`: shared data.
- `utils.dfy`: `stdnet/utils/__init__.py`.
- `base.dfy`: `stdnet/orm/base.py`.
- `models.dfy`: `stdnet/orm/models.py`.
- `session_model.dfy`: `SessionModel` in `stdnet/orm/session.py`.
- `sessions.dfy`: `Session`, `Transaction` and `Manager.transaction`.

Where the written behaviour and the documented behaviour of the library
differ, the model follows the code:

- `Transaction.rollback` on a closed transaction does nothing; it does not
  raise. `Sessions.RollbackIdempotent` states this. Nor does it do anything
  on a session without session models, because `if self.session:` asks for
  the session's length. See Findings.
- A second `commit` raises. As written, `close` never sets `_result`, so
  `is_open` stays true and the error comes from iterating a detached
  transaction's `None` session. That is `NoneNotIterable` rather than
  `InvalidTransaction` (`Sessions.CommitOnce`). The `tracksResult` flag of
  `Sessions.Transaction` covers the variant where the result is recorded.
- `Session.commit` with no transaction begins one when the session is *not*
  in autocommit mode. It raises only in autocommit mode.
- The four staging dictionaries are disjoint only while callers keep to the
  guard that `SessionModel.add` evidently means. See Findings.

## Model

| member | source | states |
|---|---|---|
| Utils.Grouper | stdnet/utils/__init__.py:27-29 | every group has `n` items, and there are just enough groups to cover the input; the groups concatenated are the input followed by the fewer than `n` pad values that fill the last group; `n <= 0` gives no groups |
| Utils.GrouperExample | stdnet/utils/__init__.py:28 | the docstring example `grouper(3, 'abcdefg', 'x')` gives `abc`, `def`, `gxx` |
| Utils.FormatIntDigits | stdnet/utils/__init__.py:31-35 | removing the commas from `_format_int(v)` gives the decimal digits of `abs(v)`; the result starts with `-` exactly when `v` is negative |
| Utils.FormatIntGroups | stdnet/utils/__init__.py:32-34 | the comma-separated groups are digit strings; the first has 1 to 3 digits and every later one has exactly 3 |
| Utils.FormatIntFallbackDropsResult | stdnet/utils/__init__.py:37-41 | without the `{:,}` format, `format_int(1000)` gives `None`, although `_format_int(1000)` is `"1,000"` |
| Utils.FormatIntCorrected | stdnet/utils/__init__.py:37-41 | the corrected `format_int` always gives a result; without its commas it reads as the signed decimal number |
| Utils.FlatMappingPairs | stdnet/utils/__init__.py:43-50 | for a dict or a sequence of pairs, the flat list has two items per pair; item `2i` is the key (first item) of pair `i` and item `2i+1` its value, in iteration order |
| Utils.Flat2d | stdnet/utils/__init__.py:53-63 | `flat2d` raises `IndexError` exactly when the iterable has no length and one of its elements has fewer than two items; a sized iterable gives all items chained; otherwise item `i` contributes its first element at `2i` and its second at `2i+1`, and nothing else |
| Utils.Flat2dPathsAgree | stdnet/utils/__init__.py:53-63 | on a sequence of pairs the chained result and the generator result are the same sequence |
| Utils.FlatZset | stdnet/utils/__init__.py:66-79 | `UnboundLocalError` exactly when neither argument is truthy; otherwise the flattened iterable (failing as `flat2d` does) followed by each value of `kwargs` and then its key |
| Utils.FlatZsetLayout | stdnet/utils/__init__.py:66-79 | for a non-empty list of pairs and a dict, pair `i` fills positions `2i` and `2i+1`, and after the pairs each dict entry gives its value then its key |
| Base.KeysExtendBaseKey | stdnet/orm/base.py:101-125 | the id counter, id set, instance hash and index keys all begin with `basekey()` followed by a colon |
| Base.BaseKeyShape | stdnet/orm/base.py:94-109 | `basekey()` is the key prefix followed by the `repr` of the model, which is `app_label.name` or just `name` |
| Base.KeyHashInjective | stdnet/orm/base.py:118-120 | ids that print differently give different instance hash keys |
| Base.KeysDistinct | stdnet/orm/base.py:111-125 | the id counter, id set, hash and index keys of one model never collide |
| Base.MetaOptions | stdnet/orm/base.py:199-205 | `abstract`, `keyprefix` and `app_label` are taken from the declared `Meta` attributes, with defaults `False`, `None` and `None` |
| Base.MetaOptionsDiscardsOthers | stdnet/orm/base.py:199-205 | options other than the three named ones, `verbose_name` included, do not reach the result |
| Base.AppLabelDerivation | stdnet/orm/base.py:183-190 | a declared label is kept; otherwise the label is the second-to-last dotted component of the module name, or empty for a module name without a dot |
| Base.GetFieldsSpec | stdnet/orm/base.py:13-23 | a field the class declares overrides any inherited one; other names keep the field inherited from the model bases; the declared fields leave the class dict and other attributes stay |
| Base.RegisterFields | stdnet/orm/base.py:75-89 | registration fails with `FieldError` naming a field exactly when a field other than `id` claims to be the primary key; otherwise `id` is the automatic key and every other field is kept |
| Base.NonPkIdIgnored | stdnet/orm/base.py:75-82 | a declared `id` that is not a primary key is silently replaced by the automatic key; the intended check raises `FieldError` |
| Base.RegisterFieldsIntended | stdnet/orm/base.py:75-82 | with the test on the name `'id'`, the declared `id` becomes the primary key and must be one; other fields are kept |
| Base.FirstExtraPk | stdnet/orm/base.py:84-89 | finds the first field other than `id` that claims to be a primary key, or none when no field does |
| Base.MakeMetaSpec | stdnet/orm/base.py:161-196 | building a model class fails exactly when a non-`id` field claims the primary key; `name` is the lower-cased class name, `verbose_name` equals it, the options come from the declared `Meta`, and the `id` field is the automatic key |
| Base.DoublePrimaryKeyRejected | tests/regression/fields/meta.py:23-28 | declaring `id` and `code` both as primary keys raises `FieldError` for `code` |
| Models.EqEquivalence | stdnet/orm/models.py:23-30 | instance equality is reflexive, symmetric and transitive, and `!=` is its negation |
| Models.Uuid | stdnet/orm/models.py:39-43 | `uuid` raises `DoesNotExist` exactly when the id is falsy |
| Models.EqSameUuid | stdnet/orm/models.py:32-36 | equal saved instances have equal uuids, so equal instances hash alike |
| Models.FromUuid | stdnet/orm/models.py:219-229 | the lookup succeeds exactly when the uuid splits at dots into two parts and the first is a registered model hash; otherwise it raises `DoesNotExist` |
| Models.FromUuidOfUuid | stdnet/orm/models.py:219-229 | the `uuid` of a saved instance leads back to its model and id, when neither the hash nor the id contains a dot |
| Models.FromUuidOfIntId | stdnet/orm/models.py:39-43 | the same round trip holds for every non-zero integer id |
| Models.UuidOfFromUuid | stdnet/orm/models.py:223-228 | a successful lookup was given exactly `hash.id` |
| Models.Construct | stdnet/orm/models.py:78-87 | construction succeeds exactly when every keyword is a scalar field or `id`, and otherwise names a leftover keyword; a new instance has one value per scalar field, is transient and detached, and takes its id from `kwargs` |
| Models.ConstructFieldValue | stdnet/orm/models.py:79-84 | each scalar field holds its keyword value, or the field default when the keyword is absent or `None` |
| Models.Make | stdnet/orm/base.py:134-142 | `make` gives an instance with the given id and state and a value for each scalar field the data covers |
| Models.MakeValues | stdnet/orm/base.py:138-140 | the scalar field at position `i` holds the converted data value at position `i`, for every position the data covers |
| Models.ToDict | stdnet/orm/models.py:170-177 | `todict` has a key exactly for each non-primary-key scalar field whose serialised value is truthy, and that key holds the serialised value of the attribute |
| Models.ToDictOmitsPk | stdnet/orm/models.py:170-177 | the primary key never appears in `todict` |
| Models.ModelToDict | stdnet/orm/models.py:232-241 | for an instance it is `todict`; for a class the entries are exactly the fields with a truthy default, each mapped to that default |
| Models.ModelToDictNoDefaults | tests/regression/inspect/tests.py:19-20 | a class whose fields have no truthy default gives an empty dict |
| Models.DeleteCheckUuid | stdnet/orm/models.py:150-151 | deleting raises "never saved" exactly when `uuid` would raise, that is when the id is falsy |
| SessionModels.Empty | stdnet/orm/session.py:24-30 | a new session model has nothing pending and is valid |
| SessionModels.LenCountsPending | stdnet/orm/session.py:32-33 | in a valid session model, `len` is the number of distinct ids pending in new, modified or deleted; loaded instances do not count |
| SessionModels.Iter | stdnet/orm/session.py:35-43 | iteration yields the new, then modified, then deleted instances in order; loaded ones are skipped |
| SessionModels.ContainsIter | stdnet/orm/session.py:69-72 | `instance in sm` holds exactly when some iterated instance has the same `iid` |
| SessionModels.GetById | stdnet/orm/session.py:74-80 | `get` finds an instance exactly when modified, deleted or loaded holds the id; new instances are not looked up; modified is searched first |
| SessionModels.GetByIdHolder | stdnet/orm/session.py:74-80 | in a valid session model, `get` returns the instance of the one dictionary holding the id, and never a new instance |
| SessionModels.Add | stdnet/orm/session.py:82-96 | a deleted state raises; a transient instance goes to new; a modified persistent one moves from loaded to modified; an unmodified one goes to loaded unless the guard holds it back |
| SessionModels.AddPreservesValid | stdnet/orm/session.py:82-96 | with the guard on the `iid`, adding keeps every id in at most one dictionary, as long as the instance is not pending in new or deleted |
| SessionModels.AddStateGuardDuplicates | stdnet/orm/session.py:91 | with the guard as written, re-adding a modified instance as unmodified puts it in both modified and loaded, and a later `pop` raises "duplicated" |
| SessionModels.PopId | stdnet/orm/session.py:122-129 | `pop` raises exactly when two dictionaries hold the id; otherwise it removes and returns the holder's instance, or `None` |
| SessionModels.Pop | stdnet/orm/session.py:110-129 | an instance of the model pops its `iid` and anything else pops as an id; an instance of another class leaves the model unchanged and raises exactly when its id is falsy (unhashable), otherwise finds nothing |
| SessionModels.PopPreservesValid | stdnet/orm/session.py:118-129 | popping from a valid session model keeps it valid, and afterwards no dictionary holds the id |
| SessionModels.PopThenAddNew | stdnet/orm/session.py:110-129 | popping the most recently added new instance and adding it back restores the session model exactly |
| SessionModels.Delete | stdnet/orm/session.py:98-108 | `delete` pops the instance; a persistent one is marked deleted and stored in deleted; a transient one is detached |
| SessionModels.DeleteSpec | stdnet/orm/session.py:98-108 | after deleting a persistent instance from a valid model, deleted holds it and no other dictionary does |
| SessionModels.Expunge | stdnet/orm/session.py:131-141 | `expunge` of an id no dictionary holds raises on the `None` result; otherwise it returns the popped instance, now detached |
| SessionModels.PreCommit | stdnet/orm/session.py:157-172 | deleted instances become one id query (object models) or are queued themselves (structures); the count is the number of queries plus the length |
| SessionModels.PreCommitTwice | stdnet/orm/session.py:157-172 | a second `pre_commit` changes nothing more, and the length drops by the number of deleted instances |
| SessionModels.CommitDeletions | stdnet/orm/session.py:157-172 | with only deletions pending on an object model, one id query over the deleted instances is queued, counted with the earlier queries, and nothing stays pending |
| SessionModels.ServerUpdate | stdnet/orm/session.py:181-200 | a deleted state is popped and yields nothing; with a server id, an instance missing from the session raises, and a persistent one raises exactly when its id differs; a successful update leaves the instance persistent under the server id |
| SessionModels.ServerUpdateEndsLoaded | stdnet/orm/session.py:181-200 | in a valid session model, a successful update leaves the instance in loaded under its server id, and the model stays valid |
| SessionModels.PostCommit | stdnet/orm/session.py:174-179 | `post_commit` pairs the pending instances in iteration order with the returned ids, as far as both go; the i-th returned instance is the i-th pending one updated with the i-th id: persistent under that id when there is one, left as it was without one, deleted and detached when it was deleted |
| SessionModels.UpdateAll | stdnet/orm/session.py:176-178 | the zip stops at the shorter of the instances and the ids, and each returned instance is its partner updated with the id at the same position |
| SessionModels.CommitNewInstance | stdnet/orm/session.py:174-200 | a single new instance committed with its server id ends up loaded under that id and nothing else is pending |
| Sessions.NewSession | stdnet/orm/session.py:366-371 | a new session has no session models and no transaction |
| Sessions.ModelOf | stdnet/orm/session.py:386-391 | `model(meta)` returns the existing session model or files an empty one; no other entry changes |
| Sessions.ModelOfIdempotent | stdnet/orm/session.py:386-391 | asking twice files one session model |
| Sessions.Add | stdnet/orm/session.py:440-449 | `session.add` raises exactly for a deleted state, after creating the session model; otherwise it returns the instance attached to the session; no other model's session model changes |
| Sessions.AddContains | stdnet/orm/session.py:440-449 | `session.add` raises exactly for a deleted state; afterwards the session contains a new or modified instance |
| Sessions.Delete | stdnet/orm/session.py:451-466 | a query from another session raises; a query is queued when it constructs to something; an instance is deleted through its session model |
| Sessions.DeleteFilesDeleted | stdnet/orm/session.py:451-466 | deleting an instance through the session succeeds; a persistent one ends marked deleted and filed in deleted, still in the session; a transient one leaves the session detached |
| Sessions.ExpungeForgets | stdnet/orm/session.py:393-397 | after expunging the model of an instance, or every model, the session no longer contains the instance |
| Sessions.GetMissesLoaded | stdnet/orm/session.py:435-438 | as written, a session model holding only loaded instances counts as false, so `get` misses a loaded instance |
| Sessions.GetIntendedFindsLoaded | stdnet/orm/session.py:435-438 | a lookup that tests for presence finds every loaded instance and agrees with `get` whenever work is pending |
| Sessions.ServerUpdate | stdnet/orm/session.py:521-528 | a successful `server_update` returns nothing exactly for a deleted state; a returned instance with a server id carries it and is persistent; no other model's session model changes |
| Sessions.ServerUpdateFilesLoaded | stdnet/orm/session.py:521-528 | on a valid session model, a successful update of a non-deleted instance leaves it filed as loaded, alone under its id, in the session model of its model |
| Sessions.Begin | stdnet/orm/session.py:399-406 | `begin` raises when a transaction is open; otherwise it opens one, named `transaction` by default |
| Sessions.BeginTwice | stdnet/orm/session.py:402-403 | a second `begin` raises and leaves the session unchanged |
| Sessions.PreCommitAll | stdnet/orm/session.py:325-329 | the transaction pre-commits each session model in place and keeps their order |
| Sessions.PreCommitAllZero | stdnet/orm/session.py:325-329 | with nothing pending anywhere, the total count is zero |
| Sessions.PreCommitZero | stdnet/orm/session.py:168-172 | a session model counts zero exactly when nothing is pending and no query is queued |
| Sessions.ClearQueries | stdnet/orm/session.py:318-320 | closing drops every queued delete query and keeps everything else |
| Sessions.Close | stdnet/orm/session.py:315-322 | closing a detached transaction raises on its `None` session; otherwise the queued queries are dropped and the transaction and session are unlinked |
| Sessions.ApplyOne | stdnet/orm/session.py:290-306 | a reply without ids changes nothing; a delete reply at most creates an empty session model; a save reply replaces the session model of its model by its `post_commit` result and raises when that raises; other models are untouched |
| Sessions.ApplyReplies | stdnet/orm/session.py:289-306 | a model with no `save` reply keeps its session model; the transaction link, backend and flags of the session are unchanged |
| Sessions.ApplyRepliesAppend | stdnet/orm/session.py:289-306 | replies are applied in order: applying `a + b` applies `a` and then, unless that raised, `b` |
| Sessions.ApplyRepliesSaves | stdnet/orm/session.py:289-306 | with one save reply for a model and no raise, that model's session model ends as `post_commit` of the reply's ids leaves it |
| Sessions.TxPostCommit | stdnet/orm/session.py:271-313 | the transaction is detached first, and records a result only when `_result` is tracked; an empty reply returns at once with the session closed |
| Sessions.TxPostCommitSaves | stdnet/orm/session.py:271-306 | after the whole `post_commit`, a model's single save reply leaves its session model as `SessionModel.post_commit` leaves the closed session's one |
| Sessions.TxCommit | stdnet/orm/session.py:261-269 | a closed transaction raises `InvalidTransaction`; a detached open one raises on its `None` session; otherwise the commit detaches it, and succeeds when nothing is pending |
| Sessions.CommitOnce | stdnet/orm/session.py:232-269 | after one commit, a second commit of the same transaction raises |
| Sessions.CommitNothing | stdnet/orm/session.py:266-269 | with nothing pending, the backend reply is ignored and the commit succeeds |
| Sessions.Rollback | stdnet/orm/session.py:255-259 | rolling back an attached transaction whose session holds a session model empties the session and detaches both; a detached transaction, or one whose session is empty (`Session.__len__` is zero), changes nothing |
| Sessions.RollbackEmptyKeepsTransaction | stdnet/orm/session.py:255-259 | as written, rolling back on an empty session leaves the transaction begun, so the next `begin` raises |
| Sessions.RollbackIntended | stdnet/orm/session.py:255-259 | with the guard `is not None`, an attached transaction always empties the session and detaches both |
| Sessions.RollbackIntendedFreesSession | stdnet/orm/session.py:255-259 | after the intended rollback the session can begin a new transaction; it agrees with the written one whenever the session holds a session model |
| Sessions.RollbackIdempotent | stdnet/orm/session.py:255-259 | rolling back twice is the same as rolling back once |
| Sessions.Exit | stdnet/orm/session.py:245-253 | leaving the block commits, and rolls back when that commit fails; an exception rolls back |
| Sessions.ExitOnRaiseDiscards | stdnet/orm/session.py:245-259 | an exception in the block of a transaction whose session holds a session model leaves the session with no session models and no transaction |
| Sessions.ExitOnRaiseEmpty | stdnet/orm/session.py:245-259 | an exception in the block while the session is still empty leaves session and transaction as they were, still linked |
| Sessions.Commit | stdnet/orm/session.py:514-519 | without a transaction, an autocommit session raises and any other session begins one and commits it |
| Sessions.CommitAutoBegins | stdnet/orm/session.py:514-519 | the implicitly begun transaction is detached again by the commit |
| Sessions.ManagerTransaction | stdnet/orm/session.py:586-605 | a transaction is returned exactly when the manager has a backend and every model has that same backend; it is new, named `transaction` and attached to a fresh session on that backend |
| Sessions.CheckBackends | stdnet/orm/session.py:596-604 | the check passes exactly when every model has a backend equal to the manager's, if it has one; a failure is `ModelNotRegistered` or `InvalidTransaction` |
| Sessions.CheckBackendsOrder | stdnet/orm/session.py:596-604 | a model without a backend that comes before any mismatch raises `ModelNotRegistered` |

## Left out

- Signals (`pre_commit`, `post_commit`, `pre_delete`, `post_delete`) are notifications with no effect on the staged state, so they are not modelled.
- Query construction and the backend query language are left out. A delete query is an opaque token (`SessionModels.DeleteQuery`). `query.construct()` returning `None` is a parameter of `Sessions.Delete`.
- Remote I/O is left out:
  - `execute_session` is replaced by the reply it would produce.
  - `Metaclass.flush`, `Metaclass.table`, `StdModel.save` and `StdModel.delete`'s backend call, and `related_objects` cascades are not modelled.
  - `model.objects.get` inside `from_uuid` is not modelled.
  - `Session.flush`, `clean`, `keys`, `query`, `empty`, `get_or_create` and `get_delete_query` are not modelled.
- `pk_to_python`, `to_python` and `serialize` are not modelled. `Models.Make` takes the conversion as a function; `Models.ToDict` takes the serialisation as a function.
- The `ModelState` class is not part of this model. State is a record (`iid`, `persistent`, `deleted`). After the server id is stored in `_dbdata`, the state is taken to be persistent with that id as its `iid`.
- `Field.register_with_model` is not part of this model. The scalar fields are the non-primary-key scalar fields, each with `attname` equal to its name. `Field.get_default` is the stored default, not a callable.
- The iteration order of plain Python 2 dictionaries is modelled as insertion order. The model therefore fixes one order where the source's is arbitrary, and these results depend on it:
  - which field or keyword an error message names (`kwargs.keys()[0]`, the registration loop over `fields.iteritems()`);
  - the order of `scalarfields`, which comes from the plain dict of `get_fields` and the registration loop, and so which `data` value `make` gives to which field (`Models.Make`, `Models.MakeValues` hold for the modelled order);
  - the order in which `flat_mapping` of a dict and `flatzset`'s `kwargs` emit their entries (`Utils.FlatMappingPairs`, `Utils.FlatZset`, `Utils.FlatZsetLayout`).
- The frozenset of deleted instances in `pre_commit` is modelled in insertion order.
- SessionModels.PostCommit: `zip(self, ids)` iterates the dictionaries while `server_update` changes them. The model zips a snapshot taken before the loop, so it describes the intended pairing, not the effects of mutating during iteration.
- Object identity is not modelled:
  - Instances are values.
  - `_meta` objects are compared structurally.
  - A session is identified by its `sid`.
  - `instance.session` is an `attached` flag.
- Python's cross-type equality (`1 == True`) is not modelled.
- Strings.Lower: lower-cases ASCII letters only.
- SessionModels.Delete: takes an instance only, which is all `Session.delete` passes it.
- SessionModels.Pop: class membership is equality of `_meta`. The source's `isinstance` also accepts an instance of a subclass of the model and pops it by `iid`; the model treats such an instance as one of another model, used as a key.
- Sessions.ServerUpdate: takes a model instance only; the source returns `None` for an argument without `_meta`.
- Managers, except `Manager.transaction`, are left out: `setup_managers`, the query proxies and `Manager.session`'s construction of a backend.
- The structure caches, `redisinfo`, `gen_unique_id`, `convert_bytes`, `uplevel` and `PPath` are outside the session engine.
- `__getstate__` and `__setstate__` are pickling hooks outside the session engine.

## Findings

| source | as written | input that shows it | evidently intended | confidence | as-written member | corrected member |
|---|---|---|---|---|---|---|
| stdnet/orm/session.py:91 | `elif state not in self._modified` tests the state object against a dictionary keyed by `iid` | a persistent instance added as modified, then added again with `modified=False` | test `iid not in self._modified`, so the instance stays in modified only | medium, not executed | SessionModels.AddStateGuardDuplicates | SessionModels.AddPreservesValid |
| stdnet/orm/session.py:437 | `if sm:` calls `SessionModel.__len__`, which leaves out loaded instances | a session whose model holds only one loaded instance; `get` returns `None` | `if sm is not None:` | medium, not executed | Sessions.GetMissesLoaded | Sessions.GetIntendedFindsLoaded |
| stdnet/utils/__init__.py:41 | the fallback calls `_format_int(val)` without returning it | `format_int(1000)` where `{:,}` raises `ValueError` gives `None` | `return _format_int(val)`, giving `"1,000"` | high, not executed | Utils.FormatIntFallbackDropsResult | Utils.FormatIntCorrected |
| stdnet/orm/session.py:256 | `if self.session:` asks for `Session.__len__`, the number of session models | `s.begin()` and then an exception inside `with` before anything is added: the rollback does nothing and the next `s.begin()` raises "A transaction is already begun." | `if self.session is not None:`, so the rollback always unlinks the transaction | medium, not executed | Sessions.RollbackEmptyKeepsTransaction | Sessions.RollbackIntendedFreesSession |
| stdnet/orm/base.py:75 | `id in fields` tests the builtin `id`, never a field name | a model declaring `id` as a field without `primary_key` registers with no error | `'id' in fields`, so the declared `id` is the key and "Primary key must be named id" can fire | medium, not executed | Base.NonPkIdIgnored | Base.RegisterFieldsIntended |
