/** Insertion-ordered dictionaries, as Python's `OrderedDict` (and the
    insertion-ordered `dict`) behave: assigning to an existing key keeps its
    position, assigning a new key appends it, popping removes it. Iteration
    order is the order of the entries. */
module OrderedMaps {
  import opened Results

  datatype Entry<K, V> = Entry(key: K, value: V)

  type OMap<K, V> = seq<Entry<K, V>>

  function Keys<K(==), V>(o: OMap<K, V>): set<K> {
    if |o| == 0 then {} else {o[0].key} + Keys(o[1..])
  }

  /** No key occurs twice: the well-formedness of a dictionary. */
  predicate Distinct<K(==), V>(o: OMap<K, V>) {
    |o| == 0 || (o[0].key !in Keys(o[1..]) && Distinct(o[1..]))
  }

  /** `d.get(k)`. */
  function Get<K(==), V>(o: OMap<K, V>, k: K): (r: Option<V>)
    ensures r.Some? <==> k in Keys(o)
  {
    if |o| == 0 then None
    else if o[0].key == k then Some(o[0].value)
    else Get(o[1..], k)
  }

  /** `d[k] = v`. */
  function Put<K(==, !new), V>(o: OMap<K, V>, k: K, v: V): (r: OMap<K, V>)
    ensures Keys(r) == Keys(o) + {k}
    ensures Get(r, k) == Some(v)
    ensures forall k' :: k' != k ==> Get(r, k') == Get(o, k')
    ensures Distinct(o) ==> Distinct(r)
    ensures k in Keys(o) ==> |r| == |o|
    ensures k !in Keys(o) ==> r == o + [Entry(k, v)]
  {
    if |o| == 0 then [Entry(k, v)]
    else if o[0].key == k then [Entry(k, v)] + o[1..]
    else
      var rest := Put(o[1..], k, v);
      assert ([o[0]] + rest)[1..] == rest;
      [o[0]] + rest
  }

  /** `d.pop(k, None)` without its result: every entry under `k` is gone. */
  function Remove<K(==, !new), V>(o: OMap<K, V>, k: K): (r: OMap<K, V>)
    ensures Keys(r) == Keys(o) - {k}
    ensures Get(r, k) == None
    ensures forall k' :: k' != k ==> Get(r, k') == Get(o, k')
    ensures Distinct(o) ==> Distinct(r)
    ensures k !in Keys(o) ==> r == o
    ensures Distinct(o) && k in Keys(o) ==> |r| == |o| - 1
  {
    if |o| == 0 then []
    else if o[0].key == k then Remove(o[1..], k)
    else
      var rest := Remove(o[1..], k);
      assert ([o[0]] + rest)[1..] == rest;
      [o[0]] + rest
  }

  /** `d.values()` in iteration order. */
  function ValueList<K(==), V>(o: OMap<K, V>): (r: seq<V>)
    ensures |r| == |o|
    ensures forall i :: 0 <= i < |o| ==> r[i] == o[i].value
  {
    if |o| == 0 then [] else [o[0].value] + ValueList(o[1..])
  }

  /** `d.update(other)`: the entries of `other` assigned one after another. */
  function Update<K(==, !new), V>(o: OMap<K, V>, other: OMap<K, V>): (r: OMap<K, V>)
    ensures Keys(r) == Keys(o) + Keys(other)
    ensures Distinct(o) ==> Distinct(r)
    decreases |other|
  {
    if |other| == 0 then o else Update(Put(o, other[0].key, other[0].value), other[1..])
  }

  /** After `d.update(other)` a key of `other` maps to its value there and
      every other key keeps its old value. */
  lemma {:induction false} UpdateGet<K(!new), V>(o: OMap<K, V>, other: OMap<K, V>, k: K)
    requires Distinct(other)
    ensures Get(Update(o, other), k) == if k in Keys(other) then Get(other, k) else Get(o, k)
    decreases |other|
  {
    if |other| > 0 {
      UpdateGet(Put(o, other[0].key, other[0].value), other[1..], k);
    }
  }

  /** The key of each entry is among the keys. */
  lemma {:induction false} EntryKeyIn<K, V>(o: OMap<K, V>, i: nat)
    requires i < |o|
    ensures o[i].key in Keys(o)
    ensures Get(o, o[i].key).Some?
  {
    if i > 0 {
      EntryKeyIn(o[1..], i - 1);
    }
  }

  /** In a dictionary, looking up the key of an entry finds that entry's value. */
  lemma {:induction false} GetEntry<K, V>(o: OMap<K, V>, i: nat)
    requires Distinct(o)
    requires i < |o|
    ensures Get(o, o[i].key) == Some(o[i].value)
  {
    if i > 0 {
      EntryKeyIn(o[1..], i - 1);
      GetEntry(o[1..], i - 1);
    }
  }

  /** A dictionary has as many keys as entries. */
  lemma {:induction false} DistinctKeysCard<K, V>(o: OMap<K, V>)
    requires Distinct(o)
    ensures |Keys(o)| == |o|
  {
    if |o| > 0 {
      DistinctKeysCard(o[1..]);
    }
  }

  /** A key is present exactly when some entry carries it. */
  lemma {:induction false} KeysIndex<K, V>(o: OMap<K, V>, k: K)
    ensures k in Keys(o) <==> exists i :: 0 <= i < |o| && o[i].key == k
  {
    if |o| > 0 {
      KeysIndex(o[1..], k);
      if k in Keys(o[1..]) {
        var i :| 0 <= i < |o[1..]| && o[1..][i].key == k;
        assert o[i + 1].key == k;
      }
      if exists i :: 0 <= i < |o| && o[i].key == k {
        var i :| 0 <= i < |o| && o[i].key == k;
        if i > 0 {
          assert o[1..][i - 1].key == k;
        }
      }
    }
  }
}
