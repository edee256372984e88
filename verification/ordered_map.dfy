/** JavaScript `Map` semantics (and those of a plain object whose keys are not array indices):
    a dictionary that remembers the order in which its keys were first inserted. */
module OrderedMaps {
  import opened Wrappers

  /** Every key of `s` except `k`, in order. */
  function Without<K(==,!new)>(s: seq<K>, k: K): (r: seq<K>)
    ensures forall x {:trigger x in r} :: x in r <==> x in s && x != k
    ensures |r| <= |s|
    ensures k !in s ==> r == s
  {
    if s == [] then []
    else if s[0] == k then Without(s[1..], k)
    else [s[0]] + Without(s[1..], k)
  }

  /** Every key of `s` outside `gone`, in order. */
  function Drop<K(==,!new)>(s: seq<K>, gone: set<K>): (r: seq<K>)
    ensures forall x {:trigger x in r} :: x in r <==> x in s && x !in gone
  {
    if s == [] then []
    else if s[0] in gone then Drop(s[1..], gone)
    else [s[0]] + Drop(s[1..], gone)
  }

  /** Dropping one more key is dropping the larger set. */
  lemma {:induction false} DropWithout<K(!new)>(s: seq<K>, gone: set<K>, k: K)
    ensures Without(Drop(s, gone), k) == Drop(s, gone + {k})
  {
    if s != [] {
      DropWithout(s[1..], gone, k);
    }
  }

  lemma {:induction false} DropTwice<K(!new)>(s: seq<K>, a: set<K>, b: set<K>)
    ensures Drop(Drop(s, a), b) == Drop(s, a + b)
  {
    if s != [] {
      DropTwice(s[1..], a, b);
    }
  }

  /** No key is listed twice. The definition peels one key at a time, so that the
      solver only unfolds it where a proof asks for it. */
  ghost predicate Distinct<K>(s: seq<K>)
  {
    s == [] || (s[0] !in s[1..] && Distinct(s[1..]))
  }

  /** Two positions of a list without repeats hold different keys. */
  lemma {:induction false} DistinctApart<K>(s: seq<K>, i: int, j: int)
    requires Distinct(s) && 0 <= i < j < |s|
    ensures s[i] != s[j]
  {
    if i > 0 {
      DistinctApart(s[1..], i - 1, j - 1);
    } else {
      assert s[j] == s[1..][j - 1];
    }
  }

  /** A new key may go last. */
  lemma {:induction false} DistinctAppend<K>(s: seq<K>, k: K)
    requires Distinct(s) && k !in s
    ensures Distinct(s + [k])
  {
    if s != [] {
      assert (s + [k])[1..] == s[1..] + [k];
      DistinctAppend(s[1..], k);
    }
  }

  lemma {:induction false} DropDistinct<K(!new)>(s: seq<K>, gone: set<K>)
    requires Distinct(s)
    ensures Distinct(Drop(s, gone))
  {
    if s != [] {
      DropDistinct(s[1..], gone);
    }
  }

  lemma {:induction false} WithoutDistinct<K(!new)>(s: seq<K>, k: K)
    requires Distinct(s)
    ensures Distinct(Without(s, k))
    ensures |Without(s, k)| == if k in s then |s| - 1 else |s|
  {
    if s != [] {
      WithoutDistinct(s[1..], k);
      if s[0] == k {
        assert k !in s[1..];
      }
    }
  }

  datatype OMap<K(==,!new), V> = OMap(keys: seq<K>, vals: map<K, V>)
  {
    /** The key list holds each key of the dictionary exactly once. */
    ghost predicate Valid()
    {
      Distinct(keys) && forall k :: k in vals <==> k in keys
    }

    function Size(): nat
    {
      |keys|
    }

    /** `m.get(k)`, with None for undefined. */
    function Get(k: K): Option<V>
    {
      if k in vals then Some(vals[k]) else None
    }

    /** `m.set(k, v)`: a new key goes last, an existing key keeps its place. */
    function Set(k: K, v: V): (r: OMap<K, V>)
      requires Valid()
      ensures r.Valid()
      ensures r.Get(k) == Some(v)
      ensures forall j :: j != k ==> r.Get(j) == Get(j)
      ensures r.Size() == if k in vals then Size() else Size() + 1
      ensures keys <= r.keys
      ensures Get(k) == Some(v) ==> r == this
    {
      if k in vals then OMap(keys, vals[k := v])
      else
        DistinctAppend(keys, k);
        OMap(keys + [k], vals[k := v])
    }

    /** `m.delete(k)`: the other keys keep their relative order. */
    function Delete(k: K): (r: OMap<K, V>)
      requires Valid()
      ensures r.Valid()
      ensures r.Get(k) == None
      ensures forall j :: j != k ==> r.Get(j) == Get(j)
      ensures r.Size() == if k in vals then Size() - 1 else Size()
      ensures k !in vals ==> r == this
    {
      WithoutDistinct(keys, k);
      OMap(Without(keys, k), vals - {k})
    }

    /** Every entry whose key is outside `gone`, in the same order: `m.delete(k)` for
        each k in `gone`. */
    function DeleteAll(gone: set<K>): (r: OMap<K, V>)
      requires Valid()
      ensures r.Valid()
      ensures forall j :: r.Get(j) == if j in gone then None else Get(j)
    {
      DropDistinct(keys, gone);
      OMap(Drop(keys, gone), vals - gone)
    }

    /** `Array.from(m.values())`: one value per key, in key order. */
    function Values(): (r: seq<V>)
      requires Valid()
      ensures |r| == Size()
      ensures forall i :: 0 <= i < |r| ==> r[i] == vals[keys[i]]
    {
      seq(|keys|, i requires 0 <= i < |keys| => vals[keys[i]])
    }
  }

  function Empty<K(==,!new), V>(): (r: OMap<K, V>)
    ensures r.Valid() && r.Size() == 0 && forall k :: r.Get(k) == None
  {
    OMap([], map[])
  }

  /** Deleting one more key after a batch is the batch with that key. */
  lemma DeleteAllStep<K(!new), V>(m: OMap<K, V>, gone: set<K>, k: K)
    requires m.Valid()
    ensures m.DeleteAll(gone).Delete(k) == m.DeleteAll(gone + {k})
  {
    DropWithout(m.keys, gone, k);
    assert (m.vals - gone) - {k} == m.vals - (gone + {k});
  }

  /** Deleting one key is deleting the batch of just that key. */
  lemma DeleteOne<K(!new), V>(m: OMap<K, V>, k: K)
    requires m.Valid()
    ensures m.Delete(k) == m.DeleteAll({k})
  {
    DeleteAllAbsent(m, {});
    DeleteAllStep(m, {}, k);
    assert {} + {k} == {k};
  }

  /** Dropping keys that are not listed changes nothing. */
  lemma {:induction false} DropNone<K(!new)>(s: seq<K>, gone: set<K>)
    requires forall x | x in s :: x !in gone
    ensures Drop(s, gone) == s
  {
    if s != [] {
      DropNone(s[1..], gone);
    }
  }

  /** Deleting keys the map does not hold leaves it as it is. */
  lemma DeleteAllAbsent<K(!new), V>(m: OMap<K, V>, gone: set<K>)
    requires m.Valid() && forall k | k in gone :: k !in m.vals
    ensures m.DeleteAll(gone) == m
  {
    DropNone(m.keys, gone);
    assert m.vals - gone == m.vals;
  }

  /** Two batches of deletions are one batch. */
  lemma DeleteAllTwice<K(!new), V>(m: OMap<K, V>, a: set<K>, b: set<K>)
    requires m.Valid()
    ensures m.DeleteAll(a).DeleteAll(b) == m.DeleteAll(a + b)
  {
    DropTwice(m.keys, a, b);
    assert (m.vals - a) - b == m.vals - (a + b);
  }

  /** A key set for the first time is listed last. */
  lemma SetNewKeyAppends<K(!new), V>(m: OMap<K, V>, k: K, v: V)
    requires m.Valid() && k !in m.vals
    ensures m.Set(k, v).Values() == m.Values() + [v]
  {
    var r := m.Set(k, v);
    assert r.keys == m.keys + [k];
    forall i | 0 <= i < |m.keys| ensures r.Values()[i] == m.Values()[i] {
      assert m.keys[i] != k;
    }
  }

  /** Each stored entry is listed exactly once by `Values`. */
  lemma ValuesListEachEntryOnce<K(!new), V>(m: OMap<K, V>, k: K)
    requires m.Valid() && k in m.vals
    ensures exists i :: 0 <= i < m.Size() && m.keys[i] == k && m.Values()[i] == m.vals[k]
    ensures forall i, j :: 0 <= i < j < m.Size() ==> m.keys[i] != m.keys[j]
  {
    var i :| 0 <= i < |m.keys| && m.keys[i] == k;
    assert m.Values()[i] == m.vals[k];
    forall i, j | 0 <= i < j < m.Size() ensures m.keys[i] != m.keys[j] {
      DistinctApart(m.keys, i, j);
    }
  }
}
