/**
 * Python dictionaries as the modelled code uses them: keys are unique and
 * iteration follows insertion order.  A dictionary is a sequence of
 * key/value pairs with distinct keys; assigning to an existing key keeps its
 * position, assigning to a new key appends it, deleting keeps the order of
 * the rest.
 */
module Dicts {
  import opened Wrappers

  type Dict<K, V> = seq<(K, V)>

  ghost predicate DistinctKeys<K, V>(d: Dict<K, V>) {
    forall i, j :: 0 <= i < j < |d| ==> d[i].0 != d[j].0
  }

  /** The keys in iteration order. */
  function Keys<K, V>(d: Dict<K, V>): (ks: seq<K>)
    ensures |ks| == |d|
    ensures forall i :: 0 <= i < |d| ==> ks[i] == d[i].0
  {
    if d == [] then [] else [d[0].0] + Keys(d[1..])
  }

  /** Position of key `k`, if present (`k in d`). */
  function IndexOf<K(==), V>(d: Dict<K, V>, k: K): (r: Option<nat>)
    ensures r.Some? ==> r.value < |d| && d[r.value].0 == k
    ensures r.Some? ==> forall j :: 0 <= j < r.value ==> d[j].0 != k
    ensures r.None? <==> forall j :: 0 <= j < |d| ==> d[j].0 != k
  {
    if d == [] then None
    else if d[0].0 == k then Some(0)
    else match IndexOf(d[1..], k)
      case None => None
      case Some(j) => Some(j + 1)
  }

  predicate HasKey<K(==), V>(d: Dict<K, V>, k: K) {
    IndexOf(d, k).Some?
  }

  /** `d.get(k)`. */
  function Get<K(==), V>(d: Dict<K, V>, k: K): Option<V> {
    match IndexOf(d, k)
    case None => None
    case Some(i) => Some(d[i].1)
  }

  /** `d[k] = v`. */
  function Put<K(==,!new), V>(d: Dict<K, V>, k: K, v: V): (r: Dict<K, V>)
    requires DistinctKeys(d)
    ensures DistinctKeys(r)
    ensures Get(r, k) == Some(v)
    ensures forall k' :: k' != k ==> Get(r, k') == Get(d, k')
    ensures HasKey(d, k) ==> Keys(r) == Keys(d) && r == d[IndexOf(d, k).value := (k, v)]
    ensures !HasKey(d, k) ==> Keys(r) == Keys(d) + [k] && r == d + [(k, v)]
  {
    match IndexOf(d, k)
    case Some(i) =>
      var r := d[i := (k, v)];
      assert forall k' :: k' != k ==> Get(r, k') == Get(d, k') by {
        forall k' | k' != k ensures Get(r, k') == Get(d, k') {
          SameKeysSameIndex(d, r, k');
        }
      }
      assert Keys(r) == Keys(d);
      r
    case None =>
      var r := d + [(k, v)];
      assert forall k' :: k' != k ==> Get(r, k') == Get(d, k') by {
        forall k' | k' != k ensures Get(r, k') == Get(d, k') {
          AppendIndex(d, (k, v), k');
        }
      }
      assert IndexOf(r, k) == Some(|d|) by { AppendIndex(d, (k, v), k); }
      assert Keys(r) == Keys(d) + [k];
      r
  }

  /** `del d[k]` when `k in d`; otherwise `d`. */
  function Remove<K(==,!new), V>(d: Dict<K, V>, k: K): (r: Dict<K, V>)
    requires DistinctKeys(d)
    ensures DistinctKeys(r)
    ensures !HasKey(r, k)
    ensures forall k' :: k' != k ==> Get(r, k') == Get(d, k')
    ensures !HasKey(d, k) ==> r == d
    ensures HasKey(d, k) ==> |r| == |d| - 1
  {
    match IndexOf(d, k)
    case None => d
    case Some(i) =>
      var r := d[..i] + d[i + 1..];
      assert forall j :: 0 <= j < |r| ==> r[j] == (if j < i then d[j] else d[j + 1]);
      assert forall k' :: k' != k ==> Get(r, k') == Get(d, k') by {
        forall k' | k' != k ensures Get(r, k') == Get(d, k') {
          RemoveAtIndex(d, i, k');
        }
      }
      r
  }

  lemma SameKeysSameIndex<K, V>(d: Dict<K, V>, r: Dict<K, V>, k: K)
    requires |d| == |r|
    requires forall j :: 0 <= j < |d| ==> d[j].0 == r[j].0
    ensures IndexOf(r, k) == IndexOf(d, k)
  {
    if d != [] {
      SameKeysSameIndex(d[1..], r[1..], k);
    }
  }

  lemma {:induction false} AppendIndex<K, V>(d: Dict<K, V>, p: (K, V), k: K)
    requires !HasKey(d, p.0)
    ensures k != p.0 ==> IndexOf(d + [p], k) == IndexOf(d, k)
    ensures k == p.0 ==> IndexOf(d + [p], k) == Some(|d|)
  {
    if d != [] {
      assert (d + [p])[1..] == d[1..] + [p];
      assert !HasKey(d[1..], p.0);
      AppendIndex(d[1..], p, k);
    }
  }

  lemma RemoveAtIndex<K, V>(d: Dict<K, V>, i: nat, k: K)
    requires DistinctKeys(d)
    requires i < |d| && d[i].0 != k
    ensures Get(d[..i] + d[i + 1..], k) == Get(d, k)
  {
    var r := d[..i] + d[i + 1..];
    match IndexOf(d, k)
    case None =>
    case Some(j) =>
      if j < i {
        assert r[j] == d[j];
        assert IndexOf(r, k) == Some(j);
      } else {
        assert r[j - 1] == d[j];
        assert IndexOf(r, k) == Some(j - 1);
      }
  }

  /** Storing twice under the same key is storing the second value. */
  lemma PutTwice<K(!new), V>(d: Dict<K, V>, k: K, v: V, w: V)
    requires DistinctKeys(d)
    ensures Put(Put(d, k, v), k, w) == Put(d, k, w)
  {
    var d' := Put(d, k, v);
    if HasKey(d, k) {
      var i := IndexOf(d, k).value;
      assert d' == d[i := (k, v)];
      SameKeysSameIndex(d, d', k);
      assert Put(d', k, w) == d'[i := (k, w)] == d[i := (k, w)];
    } else {
      AppendIndex(d, (k, v), k);
      assert d' == d + [(k, v)] && IndexOf(d', k) == Some(|d|);
      assert Put(d', k, w) == d'[|d| := (k, w)] == d + [(k, w)];
    }
  }

  /** A lookup after the first entry, for another key; the first key is not repeated. */
  lemma GetTail<K, V>(d: Dict<K, V>, k: K)
    requires d != [] && DistinctKeys(d)
    ensures k != d[0].0 ==> Get(d[1..], k) == Get(d, k)
    ensures !HasKey(d[1..], d[0].0)
  {
    assert forall j :: 0 <= j < |d[1..]| ==> d[1..][j].0 == d[j + 1].0;
  }

  /** Storing under a new key and deleting it again gives back the dictionary. */
  lemma RemovePut<K(!new), V>(d: Dict<K, V>, k: K, v: V)
    requires DistinctKeys(d) && !HasKey(d, k)
    ensures Remove(Put(d, k, v), k) == d
  {
    AppendIndex(d, (k, v), k);
    assert (d + [(k, v)])[..|d|] == d;
  }
}
