/** Insertion-ordered dictionaries, as Python's `dict` and JavaScript's `Map`
    behave: assigning to a present key keeps its position, assigning to a new
    key appends it. Several scripts return or iterate such dictionaries, and
    the order of their keys reaches the output. */
module Dicts {
  import opened Basics

  type Dict<K, V> = seq<(K, V)>

  /** `list(d)`: the keys in insertion order. */
  function Keys<K(==), V>(d: Dict<K, V>): seq<K> {
    seq(|d|, i requires 0 <= i < |d| => d[i].0)
  }

  /** The values in insertion order. */
  function Values<K, V>(d: Dict<K, V>): (r: seq<V>)
    ensures |r| == |d| && forall i :: 0 <= i < |d| ==> r[i] == d[i].1
  {
    seq(|d|, i requires 0 <= i < |d| => d[i].1)
  }

  /** No key occurs twice. */
  predicate Distinct<K(==)>(ks: seq<K>) {
    forall i, j :: 0 <= i < j < |ks| ==> ks[i] != ks[j]
  }

  lemma DistinctSnoc<K>(ks: seq<K>, k: K)
    requires Distinct(ks) && k !in ks
    ensures Distinct(ks + [k])
  {
    forall i, j | 0 <= i < j < |ks| + 1 ensures (ks + [k])[i] != (ks + [k])[j] {
      if j == |ks| {
        assert (ks + [k])[i] == ks[i];
      }
    }
  }

  predicate ValidDict<K(==), V>(d: Dict<K, V>) {
    Distinct(Keys(d))
  }

  /** The position of `k`, if it is a key. */
  function Find<K(==), V>(d: Dict<K, V>, k: K): (r: Option<nat>)
    ensures r.Some? ==> r.value < |d| && d[r.value].0 == k
    ensures r.None? <==> k !in Keys(d)
  {
    if d == [] then None
    else if d[|d| - 1].0 == k then
      assert Keys(d)[|d| - 1] == k;
      Some(|d| - 1)
    else
      assert Keys(d) == Keys(d[..|d| - 1]) + [d[|d| - 1].0];
      Find(d[..|d| - 1], k)
  }

  /** `d.get(k)`. */
  function Get<K(==), V>(d: Dict<K, V>, k: K): (r: Option<V>)
    ensures r.None? <==> k !in Keys(d)
  {
    match Find(d, k)
    case None => None
    case Some(i) => Some(d[i].1)
  }

  /** `d[k] = v`. */
  function Put<K(==), V>(d: Dict<K, V>, k: K, v: V): (r: Dict<K, V>)
    ensures Keys(r) == if k in Keys(d) then Keys(d) else Keys(d) + [k]
    ensures forall i :: 0 <= i < |d| && d[i].0 != k ==> r[i] == d[i]
  {
    match Find(d, k)
    case None =>
      assert Keys(d + [(k, v)]) == Keys(d) + [k];
      d + [(k, v)]
    case Some(i) =>
      assert Keys(d[i := (k, v)]) == Keys(d);
      d[i := (k, v)]
  }

  /** The value just stored is the one read back, no other key's value
      changes, and keys stay distinct. */
  lemma PutGet<K, V>(d: Dict<K, V>, k: K, v: V, k2: K)
    requires ValidDict(d)
    ensures ValidDict(Put(d, k, v))
    ensures Get(Put(d, k, v), k2) == if k2 == k then Some(v) else Get(d, k2)
  {
    var r := Put(d, k, v);
    assert Distinct(Keys(r)) by {
      if k !in Keys(d) {
        forall i, j | 0 <= i < j < |Keys(r)| ensures Keys(r)[i] != Keys(r)[j] {
          if j == |Keys(d)| {
            assert Keys(r)[i] == Keys(d)[i];
          }
        }
      }
    }
    FindUnique(r, k2);
    FindUnique(d, k2);
  }

  /** Without repeated keys, a key's position is its only one. */
  lemma FindUnique<K, V>(d: Dict<K, V>, k: K)
    requires ValidDict(d)
    ensures forall i :: 0 <= i < |d| && d[i].0 == k ==> Find(d, k) == Some(i)
  {
    forall i | 0 <= i < |d| && d[i].0 == k ensures Find(d, k) == Some(i) {
      assert Keys(d)[i] == k;
      var j := Find(d, k).value;
      assert Keys(d)[j] == k;
      SameKeySameIndex(Keys(d), i, j);
    }
  }

  lemma SameKeySameIndex<K>(ks: seq<K>, i: int, j: int)
    requires Distinct(ks) && 0 <= i < |ks| && 0 <= j < |ks| && ks[i] == ks[j]
    ensures i == j
  {
  }
}
