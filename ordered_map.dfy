/**
 * The JavaScript `Map` the server keeps its players and answers in: keys
 * remember the order in which they were first inserted (iteration follows it),
 * and each key holds one value.
 */
module OrderedMaps {

  /** No element occurs twice in `s`. */
  predicate Distinct<K(==)>(s: seq<K>) {
    forall i, j :: 0 <= i < j < |s| ==> s[i] != s[j]
  }

  /** `s` without the element `k`, the order of the rest kept. */
  function Remove<K(==, !new)>(s: seq<K>, k: K): (r: seq<K>)
    ensures forall x :: x in r <==> x in s && x != k
    ensures Distinct(s) ==> Distinct(r)
    ensures |r| <= |s|
  {
    if s == [] then []
    else if s[0] == k then Remove(s[1..], k)
    else
      var rest := Remove(s[1..], k);
      assert Distinct(s) ==> s[0] !in s[1..];
      [s[0]] + rest
  }

  lemma {:induction false} DistinctCard<K>(s: seq<K>)
    requires Distinct(s)
    ensures |set x | x in s| == |s|
  {
    if s != [] {
      DistinctCard(s[1..]);
      assert (set x | x in s) == {s[0]} + (set x | x in s[1..]);
      assert s[0] !in (set x | x in s[1..]);
    }
  }

  datatype OrderedMap<K(==, !new), V> = OrderedMap(keys: seq<K>, entries: map<K, V>)
  {
    /** The keys are listed once each, and exactly the keys of `entries` are listed. */
    ghost predicate Valid() {
      && Distinct(keys)
      && (forall k :: k in entries <==> k in keys)
    }

    /** `Map.prototype.size`: the number of entries. */
    function Size(): (n: nat)
      requires Valid()
      ensures n == |entries|
    {
      DistinctCard(keys);
      assert entries.Keys == set x | x in keys;
      |keys|
    }

    /** The values in iteration order (`Array.from(m.values())`). */
    function Values(): (vs: seq<V>)
      requires Valid()
      ensures |vs| == |keys|
      ensures forall i :: 0 <= i < |keys| ==> vs[i] == entries[keys[i]]
    {
      seq(|keys|, i requires 0 <= i < |keys| => entries[keys[i]])
    }

    /** `Map.prototype.set`: a new key goes last, an existing key keeps its place. */
    function Set(k: K, v: V): (m: OrderedMap<K, V>)
      requires Valid()
      ensures m.Valid()
      ensures m.entries == entries[k := v]
      ensures m.keys == if k in entries then keys else keys + [k]
    {
      if k in entries then OrderedMap(keys, entries[k := v])
      else OrderedMap(keys + [k], entries[k := v])
    }

    /** `Map.prototype.delete`: a missing key changes nothing. */
    function Delete(k: K): (m: OrderedMap<K, V>)
      requires Valid()
      ensures m.Valid()
      ensures m.entries == entries - {k}
      ensures k !in m.entries
      ensures forall x :: x in m.keys <==> x in keys && x != k
    {
      OrderedMap(Remove(keys, k), entries - {k})
    }
  }

  /** A new, empty `Map`, and what `Map.prototype.clear` leaves. */
  function Empty<K(==, !new), V>(): (m: OrderedMap<K, V>)
    ensures m.Valid() && m.Size() == 0 && m.Values() == []
  {
    OrderedMap([], map[])
  }
}
