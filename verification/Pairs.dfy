/**
 The meaning of an ordered map: a sequence of key/value pairs in which no two
 keys are the same. "The same" is the key type's own equality, which may be
 coarser than identity, so re-inserting a key keeps the key already stored.
 */
module Pairs {
  import opened Wrappers

  /** The equality and the hash function a map looks its keys up with. */
  datatype Keying<!K> = Keying(same: (K, K) -> bool, hash: K -> nat)

  /** All a map needs of its keys: an equivalence, and equal keys hash equally. */
  ghost predicate Lawful<K(!new)>(q: Keying<K>) {
    && (forall a: K :: q.same(a, a))
    && (forall a: K, b: K :: q.same(a, b) ==> q.same(b, a) && q.hash(a) == q.hash(b))
    && (forall a: K, b: K, c: K :: q.same(a, b) && q.same(b, c) ==> q.same(a, c))
  }

  /** No two positions hold the same key. */
  ghost predicate DistinctKeys<K, V>(q: Keying<K>, s: seq<(K, V)>) {
    forall i, j :: 0 <= i < j < |s| ==> !q.same(s[i].0, s[j].0)
  }

  /** Where `k` is, or `|s|` when it is absent. */
  function Position<K, V>(q: Keying<K>, s: seq<(K, V)>, k: K): (i: nat)
    ensures i <= |s|
    ensures i < |s| ==> q.same(s[i].0, k)
    ensures forall j :: 0 <= j < i ==> !q.same(s[j].0, k)
  {
    if s == [] then 0
    else if q.same(s[0].0, k) then 0
    else Position(q, s[1..], k) + 1
  }

  function Lookup<K, V>(q: Keying<K>, s: seq<(K, V)>, k: K): Option<V> {
    var i := Position(q, s, k);
    if i < |s| then Some(s[i].1) else None
  }

  /** Overwrite in place, or append. */
  function Put<K, V>(q: Keying<K>, s: seq<(K, V)>, k: K, v: V): seq<(K, V)> {
    var i := Position(q, s, k);
    if i < |s| then s[i := (s[i].0, v)] else s + [(k, v)]
  }

  /** Close the gap and move nothing else. */
  function Delete<K, V>(q: Keying<K>, s: seq<(K, V)>, k: K): seq<(K, V)> {
    var i := Position(q, s, k);
    if i < |s| then s[..i] + s[i + 1..] else s
  }

  /** In a duplicate-free sequence any matching position is the position. */
  lemma PositionUnique<K(!new), V>(q: Keying<K>, s: seq<(K, V)>, k: K, i: nat)
    requires Lawful(q) && DistinctKeys(q, s)
    requires i < |s| && q.same(s[i].0, k)
    ensures Position(q, s, k) == i
  {
  }

  lemma PutKeepsDistinct<K(!new), V>(q: Keying<K>, s: seq<(K, V)>, k: K, v: V)
    requires Lawful(q) && DistinctKeys(q, s)
    ensures DistinctKeys(q, Put(q, s, k, v))
  {
  }

  lemma DistinctAfterRemoval<K, V>(q: Keying<K>, s: seq<(K, V)>, i: nat)
    requires DistinctKeys(q, s) && i < |s|
    ensures DistinctKeys(q, s[..i] + s[i + 1..])
  {
    var d := s[..i] + s[i + 1..];
    forall a, b | 0 <= a < b < |d| ensures !q.same(d[a].0, d[b].0) {
      assert d[a] == s[if a < i then a else a + 1];
      assert d[b] == s[if b < i then b else b + 1];
    }
  }

  /** What a put changes: its own key now maps to `v`, every other key is as before. */
  lemma LookupAfterPut<K(!new), V>(q: Keying<K>, s: seq<(K, V)>, k: K, v: V, other: K)
    requires Lawful(q) && DistinctKeys(q, s)
    ensures Lookup(q, Put(q, s, k, v), other) == if q.same(k, other) then Some(v) else Lookup(q, s, other)
  {
    var t := Put(q, s, k, v);
    PutKeepsDistinct(q, s, k, v);
    var i, p := Position(q, s, k), Position(q, s, other);
    if q.same(k, other) {
      PositionUnique(q, t, other, i);
    } else if p < |s| {
      PositionUnique(q, t, other, p);
    }
  }

  /** What a delete changes: its own key is gone, every other key is as before. */
  lemma LookupAfterDelete<K(!new), V>(q: Keying<K>, s: seq<(K, V)>, k: K, other: K)
    requires Lawful(q) && DistinctKeys(q, s)
    ensures Lookup(q, Delete(q, s, k), other) == if q.same(k, other) then None else Lookup(q, s, other)
  {
    var t := Delete(q, s, k);
    var i, p := Position(q, s, k), Position(q, s, other);
    if i < |s| {
      DistinctAfterRemoval(q, s, i);
      assert forall a :: 0 <= a < |t| ==> t[a] == s[if a < i then a else a + 1];
      if !q.same(k, other) && p < |s| {
        PositionUnique(q, t, other, if p < i then p else p - 1);
      }
    }
  }
}
