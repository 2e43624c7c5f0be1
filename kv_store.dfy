/** The key-value store behind the server: string keys, one value per key, and
    a prefix scan (`kv.get`, `kv.set`, `kv.getByPrefix`). The store is an
    association list whose keys are pairwise distinct; the order of the list is
    the order in which a prefix scan returns the values. */
module Kv {
  import opened Wrappers
  import Text
  import Lists

  /** No key occurs twice: the store is a map. */
  predicate DistinctKeys<V>(es: seq<(string, V)>) {
    forall i, j :: 0 <= i < j < |es| ==> es[i].0 != es[j].0
  }

  /** `kv.get(key)`: the value stored under `key`, if any. */
  function Get<V>(es: seq<(string, V)>, key: string): (r: Option<V>)
    ensures r.None? <==> forall i :: 0 <= i < |es| ==> es[i].0 != key
    ensures r.Some? ==> (key, r.value) in es
  {
    if es == [] then None
    else if es[0].0 == key then Some(es[0].1)
    else Get(es[1..], key)
  }

  /** With distinct keys, the value found is the one of the only entry with that key. */
  lemma {:induction false} GetUnique<V>(es: seq<(string, V)>, key: string, i: nat)
    requires DistinctKeys(es) && i < |es| && es[i].0 == key
    ensures Get(es, key) == Some(es[i].1)
  {
    if i > 0 {
      GetUnique(es[1..], key, i - 1);
    }
  }

  /** `kv.set(key, value)`: an upsert. An existing entry is overwritten where it
      stands; a new key goes at the end. */
  function Set<V>(es: seq<(string, V)>, key: string, v: V): (r: seq<(string, V)>)
    ensures Get(r, key) == Some(v)
    ensures forall k :: k != key ==> Get(r, k) == Get(es, k)
  {
    if es == [] then [(key, v)]
    else if es[0].0 == key then [(key, v)] + es[1..]
    else [es[0]] + Set(es[1..], key, v)
  }

  /** On a store with distinct keys, every entry after an upsert is the new one
      or an untouched entry with another key. */
  lemma {:induction false} SetEntries<V>(es: seq<(string, V)>, key: string, v: V)
    requires DistinctKeys(es)
    ensures forall e :: e in Set(es, key, v) ==> e == (key, v) || (e in es && e.0 != key)
  {
    if es != [] {
      assert es == [es[0]] + es[1..];
      if es[0].0 != key {
        SetEntries(es[1..], key, v);
        assert Set(es, key, v) == [es[0]] + Set(es[1..], key, v);
      } else {
        assert forall i :: 1 <= i < |es| ==> es[i].0 != key;
      }
    }
  }

  /** An upsert keeps the keys distinct. */
  lemma {:induction false} SetKeepsDistinct<V>(es: seq<(string, V)>, key: string, v: V)
    requires DistinctKeys(es)
    ensures DistinctKeys(Set(es, key, v))
  {
    if es != [] && es[0].0 != key {
      var t := Set(es[1..], key, v);
      SetKeepsDistinct(es[1..], key, v);
      SetEntries(es[1..], key, v);
      forall i | 0 <= i < |t| ensures t[i].0 != es[0].0 {
        assert t[i] in t;
      }
      assert Set(es, key, v) == [es[0]] + t;
    } else if es != [] {
      assert forall i :: 1 <= i < |es| ==> es[i].0 != key;
    }
  }

  /** Writing a key twice is writing it once with the second value. */
  lemma {:induction false} SetTwice<V>(es: seq<(string, V)>, key: string, a: V, b: V)
    ensures Set(Set(es, key, a), key, b) == Set(es, key, b)
  {
    if es != [] && es[0].0 != key {
      SetTwice(es[1..], key, a, b);
      assert Set(es, key, a) == [es[0]] + Set(es[1..], key, a);
    }
  }

  /** The entries whose key starts with `prefix`, in store order. */
  function Scan<V(==)>(es: seq<(string, V)>, prefix: string): (r: seq<(string, V)>)
    ensures forall i :: 0 <= i < |r| ==> Text.StartsWith(r[i].0, prefix) && r[i] in es
    ensures forall i :: 0 <= i < |es| && Text.StartsWith(es[i].0, prefix) ==> es[i] in r
  {
    Lists.Filter(es, (e: (string, V)) => Text.StartsWith(e.0, prefix))
  }

  /** The values of a list of entries, in order. */
  function Values<V>(es: seq<(string, V)>): seq<V> {
    seq(|es|, i requires 0 <= i < |es| => es[i].1)
  }

  /** `v` is stored under some key that starts with `prefix`. */
  ghost predicate StoredUnder<V>(es: seq<(string, V)>, prefix: string, v: V) {
    exists i :: 0 <= i < |es| && Text.StartsWith(es[i].0, prefix) && es[i].1 == v
  }

  /** `kv.getByPrefix(prefix)`: the values stored under keys starting with `prefix`.
      Every value returned is stored under some key that starts with the prefix,
      and every such stored value is returned. */
  function GetByPrefix<V(==)>(es: seq<(string, V)>, prefix: string): (r: seq<V>)
    ensures |r| <= |es|
    ensures forall j :: 0 <= j < |r| ==> StoredUnder(es, prefix, r[j])
    ensures forall i :: 0 <= i < |es| && Text.StartsWith(es[i].0, prefix) ==> es[i].1 in r
  {
    var r := Values(Scan(es, prefix));
    ScanValues(es, prefix, r);
    r
  }

  lemma ScanValues<V>(es: seq<(string, V)>, prefix: string, r: seq<V>)
    requires r == Values(Scan(es, prefix))
    ensures |r| <= |es|
    ensures forall j :: 0 <= j < |r| ==> StoredUnder(es, prefix, r[j])
    ensures forall i :: 0 <= i < |es| && Text.StartsWith(es[i].0, prefix) ==> es[i].1 in r
  {
    var s := Scan(es, prefix);
    forall j | 0 <= j < |r| ensures StoredUnder(es, prefix, r[j]) {
      assert s[j] in es;
      var i :| 0 <= i < |es| && es[i] == s[j];
      assert Text.StartsWith(es[i].0, prefix) && es[i].1 == r[j];
    }
    forall i | 0 <= i < |es| && Text.StartsWith(es[i].0, prefix) ensures es[i].1 in r {
      assert es[i] in s;
      var j :| 0 <= j < |s| && s[j] == es[i];
      assert r[j] == es[i].1;
    }
  }

  /** A value stored under a key with the prefix is returned by the scan. */
  lemma StoredIsScanned<V>(es: seq<(string, V)>, prefix: string, key: string)
    requires Text.StartsWith(key, prefix) && Get(es, key).Some?
    ensures Get(es, key).value in GetByPrefix(es, prefix)
  {
    var v := Get(es, key).value;
    var i :| 0 <= i < |es| && es[i] == (key, v);
    assert Text.StartsWith(es[i].0, prefix) && es[i].1 == v;
  }
}
