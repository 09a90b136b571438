/**
 * A JavaScript `Map<string, V>`: entries in insertion order, `set`
 * replacing a present key's value in place and appending a new key,
 * `delete` removing the key's entry and keeping the order of the rest.
 */
module OrderedMap {
  import opened Wrappers

  datatype Entry<V> = Entry(key: string, value: V)

  type Table<V> = seq<Entry<V>>

  ghost predicate DistinctKeys<V>(t: Table<V>) {
    forall i, j :: 0 <= i < j < |t| ==> t[i].key != t[j].key
  }

  /** Position of `key`, or `|t|` when it is absent. */
  function IndexOfKey<V>(t: Table<V>, key: string): (i: nat)
    ensures i <= |t|
    ensures i < |t| ==> t[i].key == key
    ensures forall j :: 0 <= j < i ==> t[j].key != key
  {
    if t == [] then 0
    else if t[0].key == key then 0
    else 1 + IndexOfKey(t[1..], key)
  }

  /** The first position holding `key` is the one `IndexOfKey` finds. */
  lemma IndexOfKeyIs<V>(t: Table<V>, key: string, i: nat)
    requires i <= |t|
    requires i < |t| ==> t[i].key == key
    requires forall j :: 0 <= j < i ==> t[j].key != key
    ensures IndexOfKey(t, key) == i
  {
    var k := IndexOfKey(t, key);
    assert k < |t| ==> t[k].key == key;
  }

  /** `map.get(key)` */
  function Get<V>(t: Table<V>, key: string): (r: Option<V>)
    ensures r.None? <==> forall j :: 0 <= j < |t| ==> t[j].key != key
    ensures r.Some? ==> Entry(key, r.value) in t
  {
    var i := IndexOfKey(t, key);
    if i < |t| then Some(t[i].value) else None
  }

  /** `map.set(key, value)` */
  function Set<V>(t: Table<V>, key: string, value: V): (r: Table<V>)
    ensures Get(t, key).Some? ==> |r| == |t|
    ensures Get(t, key).Some? ==> r[IndexOfKey(t, key)] == Entry(key, value)
    ensures Get(t, key).Some? ==>
      forall j :: 0 <= j < |t| && j != IndexOfKey(t, key) ==> r[j] == t[j]
    ensures Get(t, key).None? ==> r == t + [Entry(key, value)]
  {
    var i := IndexOfKey(t, key);
    if i < |t| then t[i := Entry(key, value)] else t + [Entry(key, value)]
  }

  /** `map.delete(key)` */
  function Delete<V>(t: Table<V>, key: string): (r: Table<V>)
    ensures Get(t, key).Some? ==> |r| == |t| - 1
    ensures Get(t, key).None? ==> r == t
  {
    var i := IndexOfKey(t, key);
    if i < |t| then t[..i] + t[i + 1..] else t
  }

  /** In a table with distinct keys, the key of an entry leads back to that entry. */
  lemma IndexOfOwnKey<V>(t: Table<V>, i: nat)
    requires DistinctKeys(t) && i < |t|
    ensures IndexOfKey(t, t[i].key) == i
  {}

  /** In a table with distinct keys, every stored entry is what `get` finds under its key. */
  lemma GetEntry<V>(t: Table<V>, e: Entry<V>)
    requires DistinctKeys(t) && e in t
    ensures Get(t, e.key) == Some(e.value)
  {
    var i :| 0 <= i < |t| && t[i] == e;
    IndexOfOwnKey(t, i);
  }

  /** After `set`, the key maps to the new value and every other key keeps its value. */
  lemma GetAfterSet<V>(t: Table<V>, key: string, value: V, other: string)
    ensures Get(Set(t, key, value), key) == Some(value)
    ensures other != key ==> Get(Set(t, key, value), other) == Get(t, other)
  {
    var r := Set(t, key, value);
    var i := IndexOfKey(t, key);
    IndexOfKeyIs(r, key, i);
    if other != key {
      var k := IndexOfKey(t, other);
      if k < |t| {
        IndexOfKeyIs(r, other, k);
      } else {
        IndexOfKeyIs(r, other, |r|);
      }
    }
  }

  /** `set` keeps the keys distinct. */
  lemma SetKeepsKeysDistinct<V>(t: Table<V>, key: string, value: V)
    requires DistinctKeys(t)
    ensures DistinctKeys(Set(t, key, value))
  {}

  /** `delete` keeps the keys distinct. */
  lemma DeleteKeepsKeysDistinct<V>(t: Table<V>, key: string)
    requires DistinctKeys(t)
    ensures DistinctKeys(Delete(t, key))
  {
    var i := IndexOfKey(t, key);
    if i < |t| {
      var r := Delete(t, key);
      forall a, b | 0 <= a < b < |r| ensures r[a].key != r[b].key {
        var a' := if a < i then a else a + 1;
        var b' := if b < i then b else b + 1;
        assert r[a] == t[a'] && r[b] == t[b'];
      }
    }
  }

  /**
   * In a table with distinct keys, deleting a key removes its one entry
   * and keeps everything around it in order.
   */
  lemma DeleteEntry<V>(prefix: Table<V>, e: Entry<V>, suffix: Table<V>)
    requires forall j :: 0 <= j < |prefix| ==> prefix[j].key != e.key
    ensures Delete(prefix + [e] + suffix, e.key) == prefix + suffix
  {
    var t := prefix + [e] + suffix;
    assert t[|prefix|] == e;
    IndexOfKeyIs(t, e.key, |prefix|);
    assert t[..|prefix|] == prefix && t[|prefix| + 1..] == suffix;
  }
}
