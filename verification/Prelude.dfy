/** Values shared by every component of the model. */
module Prelude {

  /** Names of providers and jobs, and context keys of arms: strings the source only ever compares. */
  type Name(==, !new)
  type Context(==, !new)

  /** A value the source may leave as None. */
  datatype Option<+T> = None | Some(value: T)

  /** An insertion-ordered dictionary: its keys in the order they were first inserted, and its entries. */
  datatype Table<K(==), V> = Table(keys: seq<K>, entries: map<K, V>)
  {
    ghost predicate Valid() {
      && Distinct(keys)
      && (forall k | k in keys :: k in entries)
      && (forall k | k in entries :: k in keys)
    }

    function Get(k: K): Option<V> {
      if k in entries then Some(entries[k]) else None
    }

    /** Overwriting keeps the key's place; a new key goes last. */
    function Put(k: K, v: V): (r: Table<K, V>)
      ensures Valid() ==> r.Valid()
      ensures r.Get(k) == Some(v)
    {
      Table(if k in entries then keys else keys + [k], entries[k := v])
    }

    /** Removing an absent key changes nothing. */
    function Remove(k: K): (r: Table<K, V>)
      ensures Valid() ==> r.Valid()
      ensures r.Get(k) == None
    {
      Table(Without(keys, k), entries - {k})
    }
  }

  lemma PutTwice<K, V>(d: Table<K, V>, k: K, first: V, second: V)
    ensures d.Put(k, first).Put(k, second) == d.Put(k, second)
  {
    assert d.entries[k := first][k := second] == d.entries[k := second];
  }

  ghost predicate Distinct<K>(s: seq<K>) {
    forall i, j :: 0 <= i < j < |s| ==> s[i] != s[j]
  }

  /** `s` without the occurrences of `k`. */
  function Without<K(==)>(s: seq<K>, k: K): (r: seq<K>)
    ensures forall x | x in r :: x in s && x != k
    ensures forall x | x in s && x != k :: x in r
    ensures k !in s ==> r == s
    ensures Distinct(s) ==> Distinct(r)
  {
    if s == [] then []
    else
      var rest := Without(s[1..], k);
      assert forall i :: 0 <= i < |rest| ==> rest[i] in rest && rest[i] in s[1..];
      if s[0] == k then rest else [s[0]] + rest
  }

  lemma KeysMeanEntries<K, V>(d: Dict<K, V>)
    ensures d.keys != [] ==> d.entries != map[]
  {
    if d.keys != [] { assert d.keys[0] in d.entries; }
  }

  /** The slices a loop over `s` meets. */
  lemma Slices<T>(s: seq<T>, i: nat)
    requires i < |s|
    ensures s[..i + 1] == s[..i] + [s[i]] && s[..i + 1][..i] == s[..i]
  {
  }

  lemma Whole<T>(s: seq<T>)
    ensures s[..|s|] == s
  {
  }

  lemma Regroup<T>(a: seq<T>, b: seq<T>, c: seq<T>)
    ensures a + (b + c) == (a + b) + c
  {
  }

  /** A dictionary value: the keys are listed once each, exactly the keys of the entries. */
  type Dict<K(==), V> = d: Table<K, V> | d.Valid() witness Table([], map[])
}
