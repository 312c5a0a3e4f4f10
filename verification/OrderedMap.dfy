/**
 The insertion-ordered hash map of src/ordered.rs. One slab of slots carries a
 doubly linked list of the live entries, a chain of the free slots and a hash
 table of slot indices; `Contents` is the sequence of pairs they stand for.
 */
module OrderedMaps {
  import opened Wrappers
  import opened Pairs

  datatype Slot<K, V> =
    | Occupied(key: K, value: V, prev: Option<nat>, next: Option<nat>)
    | Free(nextFree: Option<nat>)

  /** The index at position `k` of a chain, `None` past either end. */
  ghost function At(chain: seq<nat>, k: int): Option<nat> {
    if 0 <= k < |chain| then Some(chain[k]) else None
  }

  ghost predicate NoRepeats(chain: seq<nat>) {
    forall i, j :: 0 <= i < j < |chain| ==> chain[i] != chain[j]
  }

  ghost predicate Live<K, V>(slab: seq<Slot<K, V>>, order: seq<nat>) {
    forall k :: 0 <= k < |order| ==> order[k] < |slab| && slab[order[k]].Occupied?
  }

  /** The links of the `k`th live slot name its neighbours. */
  ghost predicate LinksAt<K, V>(slab: seq<Slot<K, V>>, order: seq<nat>, k: int) {
    && 0 <= k < |order| && order[k] < |slab| && slab[order[k]].Occupied?
    && slab[order[k]].prev == At(order, k - 1)
    && slab[order[k]].next == At(order, k + 1)
  }

  /** `order` is the doubly linked list from `head` to `tail`. */
  ghost predicate Linked<K, V>(slab: seq<Slot<K, V>>, order: seq<nat>, head: Option<nat>, tail: Option<nat>) {
    && NoRepeats(order)
    && Live(slab, order)
    && head == At(order, 0)
    && tail == At(order, |order| - 1)
    && (forall k {:trigger LinksAt(slab, order, k)} :: 0 <= k < |order| ==> LinksAt(slab, order, k))
  }

  ghost predicate HoleAt<K, V>(slab: seq<Slot<K, V>>, holes: seq<nat>, k: int) {
    && 0 <= k < |holes| && holes[k] < |slab| && slab[holes[k]].Free?
    && slab[holes[k]].nextFree == At(holes, k + 1)
  }

  /** `holes` is the free chain from `freeHead`. */
  ghost predicate Chained<K, V>(slab: seq<Slot<K, V>>, holes: seq<nat>, freeHead: Option<nat>) {
    && NoRepeats(holes)
    && freeHead == At(holes, 0)
    && (forall k :: 0 <= k < |holes| ==> holes[k] < |slab| && slab[holes[k]].Free?)
    && (forall k {:trigger HoleAt(slab, holes, k)} :: 0 <= k < |holes| ==> HoleAt(slab, holes, k))
  }

  ghost predicate TabledAt<K, V>(q: Keying<K>, table: set<(nat, nat)>, slab: seq<Slot<K, V>>, order: seq<nat>, k: int)
    requires Live(slab, order)
  {
    0 <= k < |order| && (q.hash(slab[order[k]].key), order[k]) in table
  }

  /** The table holds exactly the live indices, each under its key's hash. */
  ghost predicate Tabled<K, V>(q: Keying<K>, table: set<(nat, nat)>, slab: seq<Slot<K, V>>, order: seq<nat>)
    requires Live(slab, order)
  {
    && (forall k {:trigger TabledAt(q, table, slab, order, k)} :: 0 <= k < |order| ==> TabledAt(q, table, slab, order, k))
    && (forall e :: e in table ==>
          e.1 in order && e.1 < |slab| && slab[e.1].Occupied? && e.0 == q.hash(slab[e.1].key))
  }

  ghost function Entries<K, V>(slab: seq<Slot<K, V>>, order: seq<nat>): (s: seq<(K, V)>)
    requires Live(slab, order)
    ensures |s| == |order|
    ensures forall k :: 0 <= k < |s| ==> s[k] == (slab[order[k]].key, slab[order[k]].value)
  {
    seq(|order|, k requires 0 <= k < |order| => (slab[order[k]].key, slab[order[k]].value))
  }

  // ----- how each kind of slab write keeps the three structures -----

  /** The free chain only depends on the slots it names. */
  lemma ChainedFrame<K, V>(slab: seq<Slot<K, V>>, slab': seq<Slot<K, V>>, holes: seq<nat>, freeHead: Option<nat>)
    requires Chained(slab, holes, freeHead)
    requires forall k :: 0 <= k < |holes| ==> holes[k] < |slab'| && slab'[holes[k]] == slab[holes[k]]
    ensures Chained(slab', holes, freeHead)
  {
    forall k | 0 <= k < |holes| ensures HoleAt(slab', holes, k) {
      assert HoleAt(slab, holes, k);
    }
  }

  lemma ChainedPop<K, V>(slab: seq<Slot<K, V>>, holes: seq<nat>, freeHead: Option<nat>, slot: Slot<K, V>)
    requires Chained(slab, holes, freeHead) && holes != []
    ensures Chained(slab[holes[0] := slot], holes[1..], slab[holes[0]].nextFree)
  {
    assert HoleAt(slab, holes, 0);
    var slab', rest := slab[holes[0] := slot], holes[1..];
    forall k | 0 <= k < |rest| ensures HoleAt(slab', rest, k) {
      assert HoleAt(slab, holes, k + 1);
    }
  }

  lemma ChainedPush<K, V>(slab: seq<Slot<K, V>>, holes: seq<nat>, freeHead: Option<nat>, index: nat)
    requires Chained(slab, holes, freeHead) && index < |slab| && slab[index].Occupied?
    ensures Chained(slab[index := Free(freeHead)], [index] + holes, Some(index))
  {
    var slab', more := slab[index := Free(freeHead)], [index] + holes;
    forall k | 0 <= k < |more| ensures HoleAt(slab', more, k) {
      if k > 0 {
        assert HoleAt(slab, holes, k - 1);
      }
    }
  }

  /** Neither does the list depend on anything but the links of its slots. */
  lemma LinkedFrame<K, V>(slab: seq<Slot<K, V>>, slab': seq<Slot<K, V>>, order: seq<nat>,
                          head: Option<nat>, tail: Option<nat>)
    requires Linked(slab, order, head, tail) && Live(slab', order)
    requires forall k :: 0 <= k < |order| ==>
                           slab'[order[k]].prev == slab[order[k]].prev && slab'[order[k]].next == slab[order[k]].next
    ensures Linked(slab', order, head, tail)
  {
    forall k | 0 <= k < |order| ensures LinksAt(slab', order, k) {
      assert LinksAt(slab, order, k);
    }
  }

  /** Appending: the old tail, if any, now points at `index`; nothing else in the list moved. */
  lemma LinkedAppend<K, V>(slab: seq<Slot<K, V>>, slab': seq<Slot<K, V>>, order: seq<nat>,
                           head: Option<nat>, tail: Option<nat>, index: nat)
    requires Linked(slab, order, head, tail) && index !in order
    requires index < |slab'| && slab'[index].Occupied? && slab'[index].prev == tail && slab'[index].next == None
    requires forall k :: 0 <= k < |order| ==>
               && order[k] < |slab'|
               && slab'[order[k]] == (if Some(order[k]) == tail then slab[order[k]].(next := Some(index)) else slab[order[k]])
    ensures Linked(slab', order + [index], if head.None? then Some(index) else head, Some(index))
  {
    var longer := order + [index];
    forall k | 0 <= k < |longer| ensures LinksAt(slab', longer, k) {
      if k < |order| {
        assert LinksAt(slab, order, k);
      }
    }
  }

  /** What unlinking the slot `index` leaves in slot `i`: only the two neighbours change. */
  ghost function Relinked<K, V>(slab: seq<Slot<K, V>>, index: nat, i: nat): Slot<K, V>
    requires index < |slab| && slab[index].Occupied?
    requires i < |slab| && slab[i].Occupied?
  {
    var fixNext := if slab[index].prev == Some(i) then slab[i].(next := slab[index].next) else slab[i];
    if slab[index].next == Some(i) then fixNext.(prev := slab[index].prev) else fixNext
  }

  lemma RelinkedAt<K, V>(slab: seq<Slot<K, V>>, order: seq<nat>, k: nat, b: nat)
    requires NoRepeats(order) && LinksAt(slab, order, k) && LinksAt(slab, order, b) && b != k
    ensures var slot := Relinked(slab, order[k], order[b]);
            && slot.Occupied?
            && slot.prev == At(order, if b == k + 1 then k - 1 else b - 1)
            && slot.next == At(order, if b == k - 1 then k + 1 else b + 1)
  {
  }

  lemma AtAfterRemoval(order: seq<nat>, k: nat, a: int)
    requires k < |order|
    ensures At(order[..k] + order[k + 1..], a) == At(order, if a < k then a else a + 1)
  {
  }

  lemma UnlinkAt<K, V>(slab: seq<Slot<K, V>>, slab': seq<Slot<K, V>>, order: seq<nat>, k: nat, a: nat)
    requires NoRepeats(order) && LinksAt(slab, order, k) && a < |order| - 1
    requires var b := if a < k then a else a + 1;
             && LinksAt(slab, order, b)
             && order[b] < |slab'| && slab'[order[b]] == Relinked(slab, order[k], order[b])
    ensures LinksAt(slab', order[..k] + order[k + 1..], a)
  {
    RelinkedAt(slab, order, k, if a < k then a else a + 1);
    AtAfterRemoval(order, k, a - 1);
    AtAfterRemoval(order, k, a);
    AtAfterRemoval(order, k, a + 1);
  }

  lemma LinkedUnlink<K, V>(slab: seq<Slot<K, V>>, slab': seq<Slot<K, V>>, order: seq<nat>,
                           head: Option<nat>, tail: Option<nat>, k: nat)
    requires Linked(slab, order, head, tail) && k < |order|
    requires forall a :: 0 <= a < |order| && a != k ==>
                           order[a] < |slab'| && slab'[order[a]] == Relinked(slab, order[k], order[a])
    ensures Linked(slab', order[..k] + order[k + 1..],
                   if slab[order[k]].prev.None? then slab[order[k]].next else head,
                   if slab[order[k]].next.None? then slab[order[k]].prev else tail)
  {
    var shorter := order[..k] + order[k + 1..];
    assert LinksAt(slab, order, k);
    forall a | 0 <= a < |shorter| ensures LinksAt(slab', shorter, a) {
      assert LinksAt(slab, order, if a < k then a else a + 1);
      UnlinkAt(slab, slab', order, k, a);
    }
    LiveFromLinks(slab', shorter);
    AtAfterRemoval(order, k, 0);
    AtAfterRemoval(order, k, |order| - 2);
  }

  lemma LiveFromLinks<K, V>(slab: seq<Slot<K, V>>, order: seq<nat>)
    requires forall k {:trigger LinksAt(slab, order, k)} :: 0 <= k < |order| ==> LinksAt(slab, order, k)
    ensures Live(slab, order)
  {
    forall k | 0 <= k < |order| ensures order[k] < |slab| && slab[order[k]].Occupied? {
      assert LinksAt(slab, order, k);
    }
  }

  /** Changing values and links but no key of a live slot. */
  lemma TabledFrame<K, V>(q: Keying<K>, table: set<(nat, nat)>, slab: seq<Slot<K, V>>, slab': seq<Slot<K, V>>,
                          order: seq<nat>)
    requires Live(slab, order) && Live(slab', order) && Tabled(q, table, slab, order)
    requires forall k :: 0 <= k < |order| ==> slab'[order[k]].key == slab[order[k]].key
    ensures Tabled(q, table, slab', order)
  {
    forall k | 0 <= k < |order| ensures TabledAt(q, table, slab', order, k) {
      assert TabledAt(q, table, slab, order, k);
    }
  }

  lemma TabledAppend<K, V>(q: Keying<K>, table: set<(nat, nat)>, slab: seq<Slot<K, V>>, slab': seq<Slot<K, V>>,
                           order: seq<nat>, index: nat)
    requires Live(slab, order) && Live(slab', order) && Tabled(q, table, slab, order)
    requires index < |slab'| && slab'[index].Occupied?
    requires forall k :: 0 <= k < |order| ==> slab'[order[k]].key == slab[order[k]].key
    ensures Live(slab', order + [index])
    ensures Tabled(q, table + {(q.hash(slab'[index].key), index)}, slab', order + [index])
  {
    var longer := order + [index];
    assert forall i :: i in order ==> i in longer;
    assert longer[|order|] == index;
    var table' := table + {(q.hash(slab'[index].key), index)};
    forall k | 0 <= k < |longer| ensures TabledAt(q, table', slab', longer, k) {
      if k < |order| {
        assert TabledAt(q, table, slab, order, k);
      }
    }
  }

  lemma TabledUnlink<K, V>(q: Keying<K>, table: set<(nat, nat)>, slab: seq<Slot<K, V>>, slab': seq<Slot<K, V>>,
                           order: seq<nat>, shorter: seq<nat>, k: nat)
    requires NoRepeats(order) && Live(slab, order) && k < |order| && Tabled(q, table, slab, order)
    requires shorter == order[..k] + order[k + 1..] && Live(slab', shorter)
    requires forall a :: 0 <= a < |order| && a != k ==> order[a] < |slab'| && slab'[order[a]].Occupied? && slab'[order[a]].key == slab[order[a]].key
    ensures Tabled(q, (set e | e in table && e.1 != order[k]), slab', shorter)
  {
    var table' := set e | e in table && e.1 != order[k];
    forall a | 0 <= a < |shorter| ensures TabledAt(q, table', slab', shorter, a) {
      var b := if a < k then a else a + 1;
      assert shorter[a] == order[b];
      assert TabledAt(q, table, slab, order, b);
    }
    forall e | e in table'
      ensures e.1 in shorter && e.1 < |slab'| && slab'[e.1].Occupied? && e.0 == q.hash(slab'[e.1].key)
    {
      var b :| 0 <= b < |order| && order[b] == e.1;
      assert shorter[if b < k then b else b - 1] == order[b];
    }
  }

  /** The slab `remove` leaves: the slot freed, then its two neighbours patched. */
  function Unlinked<K, V>(slab: seq<Slot<K, V>>, index: nat, freeHead: Option<nat>): seq<Slot<K, V>>
    requires index < |slab| && slab[index].Occupied?
    requires slab[index].prev.Some? ==> slab[index].prev.value < |slab| && slab[slab[index].prev.value].Occupied?
    requires slab[index].next.Some? ==> slab[index].next.value < |slab| && slab[slab[index].next.value].Occupied?
    requires slab[index].prev != Some(index) && slab[index].next != Some(index)
  {
    var prev, next := slab[index].prev, slab[index].next;
    var freed := slab[index := Free(freeHead)];
    var patched := if prev.Some? then freed[prev.value := freed[prev.value].(next := next)] else freed;
    if next.Some? then patched[next.value := patched[next.value].(prev := prev)] else patched
  }

  lemma UnlinkedFacts<K, V>(slab: seq<Slot<K, V>>, order: seq<nat>, head: Option<nat>, tail: Option<nat>,
                            holes: seq<nat>, freeHead: Option<nat>, k: nat)
    requires Linked(slab, order, head, tail) && Chained(slab, holes, freeHead) && LinksAt(slab, order, k)
    ensures Unlinked.requires(slab, order[k], freeHead)
    ensures var slab' := Unlinked(slab, order[k], freeHead);
            && |slab'| == |slab|
            && Chained(slab', [order[k]] + holes, Some(order[k]))
            && forall a :: 0 <= a < |order| && a != k ==> slab'[order[a]] == Relinked(slab, order[k], order[a])
  {
    var slab', more := Unlinked(slab, order[k], freeHead), [order[k]] + holes;
    ChainedPush(slab, holes, freeHead, order[k]);
    ChainedFrame(slab[order[k] := Free(freeHead)], slab', more, Some(order[k]));
  }

  // ----- the representation invariant, and how append and unlink keep it -----

  ghost predicate Represents<K, V>(q: Keying<K>, table: set<(nat, nat)>, slab: seq<Slot<K, V>>,
                                   head: Option<nat>, tail: Option<nat>, freeHead: Option<nat>,
                                   order: seq<nat>, holes: seq<nat>)
  {
    && Linked(slab, order, head, tail)
    && Chained(slab, holes, freeHead)
    && Tabled(q, table, slab, order)
    && DistinctKeys(q, Entries(slab, order))
    && |slab| == |order| + |holes|
  }

  lemma AppendKeeps<K(!new), V>(q: Keying<K>, table: set<(nat, nat)>, slab: seq<Slot<K, V>>,
                                head: Option<nat>, tail: Option<nat>, freeHead: Option<nat>,
                                order: seq<nat>, holes: seq<nat>,
                                grown: seq<Slot<K, V>>, freeHead': Option<nat>, holes': seq<nat>,
                                key: K, value: V, index: nat)
    requires Represents(q, table, slab, head, tail, freeHead, order, holes) && Lawful(q)
    requires Position(q, Entries(slab, order), key) == |order|
    requires index !in order && index < |grown| && grown[index] == Occupied(key, value, tail, None)
    requires forall k :: 0 <= k < |order| ==> order[k] < |grown| && grown[order[k]] == slab[order[k]]
    requires Chained(grown, holes', freeHead') && |grown| == |order| + 1 + |holes'|
    ensures tail.Some? ==> tail.value < |grown| && grown[tail.value].Occupied?
    ensures var slab' := if tail.Some? then grown[tail.value := grown[tail.value].(next := Some(index))] else grown;
            && Represents(q, table + {(q.hash(key), index)}, slab', if head.None? then Some(index) else head,
                          Some(index), freeHead', order + [index], holes')
            && Entries(slab', order + [index]) == Entries(slab, order) + [(key, value)]
  {
    var slab' := if tail.Some? then grown[tail.value := grown[tail.value].(next := Some(index))] else grown;
    ChainedFrame(grown, slab', holes', freeHead');
    LinkedAppend(slab, slab', order, head, tail, index);
    TabledAppend(q, table, slab, slab', order, index);
    PutKeepsDistinct(q, Entries(slab, order), key, value);
    EntriesAppend(slab, slab', order, index);
  }

  lemma EntriesAppend<K, V>(slab: seq<Slot<K, V>>, slab': seq<Slot<K, V>>, order: seq<nat>, index: nat)
    requires Live(slab, order) && Live(slab', order + [index])
    requires forall k :: 0 <= k < |order| ==>
               && order[k] < |slab'| && slab'[order[k]].Occupied?
               && slab'[order[k]].key == slab[order[k]].key && slab'[order[k]].value == slab[order[k]].value
    requires index < |slab'| && slab'[index].Occupied?
    ensures Entries(slab', order + [index]) == Entries(slab, order) + [(slab'[index].key, slab'[index].value)]
  {
    var longer := order + [index];
    assert forall k :: 0 <= k < |order| ==> longer[k] == order[k];
  }

  lemma UnlinkKeeps<K(!new), V>(q: Keying<K>, table: set<(nat, nat)>, slab: seq<Slot<K, V>>,
                                head: Option<nat>, tail: Option<nat>, freeHead: Option<nat>,
                                order: seq<nat>, holes: seq<nat>, k: nat)
    requires Represents(q, table, slab, head, tail, freeHead, order, holes) && k < |order|
    ensures Unlinked.requires(slab, order[k], freeHead)
    ensures var slab', shorter := Unlinked(slab, order[k], freeHead), order[..k] + order[k + 1..];
            && Represents(q, (set e | e in table && e.1 != order[k]), slab',
                          if slab[order[k]].prev.None? then slab[order[k]].next else head,
                          if slab[order[k]].next.None? then slab[order[k]].prev else tail,
                          Some(order[k]), shorter, [order[k]] + holes)
            && Entries(slab', shorter) == Entries(slab, order)[..k] + Entries(slab, order)[k + 1..]
  {
    assert LinksAt(slab, order, k);
    UnlinkedFacts(slab, order, head, tail, holes, freeHead, k);
    var slab', shorter := Unlinked(slab, order[k], freeHead), order[..k] + order[k + 1..];
    LinkedUnlink(slab, slab', order, head, tail, k);
    TabledUnlink(q, table, slab, slab', order, shorter, k);
    EntriesUnlink(slab, slab', order, k);
    DistinctAfterRemoval(q, Entries(slab, order), k);
  }

  lemma EntriesUnlink<K, V>(slab: seq<Slot<K, V>>, slab': seq<Slot<K, V>>, order: seq<nat>, k: nat)
    requires k < |order| && Live(slab, order) && Live(slab', order[..k] + order[k + 1..])
    requires forall a :: 0 <= a < |order| && a != k ==>
                           order[a] < |slab'| && slab'[order[a]] == Relinked(slab, order[k], order[a])
    ensures Entries(slab', order[..k] + order[k + 1..]) == Entries(slab, order)[..k] + Entries(slab, order)[k + 1..]
  {
    var shorter := order[..k] + order[k + 1..];
    assert forall a :: 0 <= a < |shorter| ==> shorter[a] == order[if a < k then a else a + 1];
  }

  class OrderedMap<K(!new), V> {
    const keying: Keying<K>
    var table: set<(nat, nat)>
    var slab: seq<Slot<K, V>>
    var head: Option<nat>
    var tail: Option<nat>
    var freeHead: Option<nat>
    var len: nat
    ghost var order: seq<nat>
    ghost var holes: seq<nat>

    ghost predicate Valid()
      reads this
    {
      && Represents(keying, table, slab, head, tail, freeHead, order, holes)
      && len == |order|
    }

    ghost function Contents(): seq<(K, V)>
      requires Valid()
      reads this
    {
      Entries(slab, order)
    }

    constructor (q: Keying<K>)
      ensures Valid() && keying == q && Contents() == [] && |slab| == 0
    {
      keying := q;
      table, slab, len := {}, [], 0;
      head, tail, freeHead := None, None, None;
      order, holes := [], [];
    }

    /** Whether slot `index` is live and holds `key`. */
    predicate Holds(index: nat, key: K)
      reads this
    {
      index < |slab| && slab[index].Occupied? && keying.same(slab[index].key, key)
    }

    /**
     A hash table probe. It may visit entries stored under other hashes, so all
     it promises is that a hit matches and that a miss overlooked no match
     stored under `hash`.
     */
    method Probe(hash: nat, key: K) returns (found: Option<nat>)
      ensures found.Some? ==> Holds(found.value, key) && exists e :: e in table && e.1 == found.value
      ensures found.None? ==> forall e :: e in table && e.0 == hash ==> !Holds(e.1, key)
    {
      var sure := set e | e in table && e.0 == hash && Holds(e.1, key);
      var hits := set e | e in table && Holds(e.1, key);
      var lucky: bool := *;
      if sure != {} {
        var e :| e in sure;
        found := Some(e.1);
      } else if lucky && hits != {} {
        var e :| e in hits;
        found := Some(e.1);
      } else {
        found := None;
        assert forall e :: e in table && e.0 == hash && Holds(e.1, key) ==> e in sure;
      }
    }

    method IndexOf(key: K) returns (found: Option<nat>)
      requires Valid() && Lawful(keying)
      ensures var p := Position(keying, Contents(), key); found == At(order, p)
    {
      found := Probe(keying.hash(key), key);
      ghost var p := Position(keying, Contents(), key);
      if found.Some? {
        ghost var k :| 0 <= k < |order| && order[k] == found.value;
        PositionUnique(keying, Contents(), key, k);
      } else {
        forall k | 0 <= k < |order| ensures !Holds(order[k], key) {
          assert TabledAt(keying, table, slab, order, k);
        }
      }
    }

    method Get(key: K) returns (value: Option<V>)
      requires Valid() && Lawful(keying)
      ensures value == Lookup(keying, Contents(), key)
    {
      var index := IndexOf(key);
      value := if index.Some? then Some(slab[index.value].value) else None;
    }

    /** `get_mut` followed by a write through the reference it returns. */
    method Update(key: K, value: V) returns (found: bool)
      requires Valid() && Lawful(keying)
      modifies this`slab
      ensures Valid() && |slab| == old(|slab|)
      ensures found == Lookup(keying, old(Contents()), key).Some?
      ensures Contents() == if found then Put(keying, old(Contents()), key, value) else old(Contents())
    {
      var index := IndexOf(key);
      found := index.Some?;
      if found {
        Overwrite(index.value, value);
      }
    }

    method Overwrite(index: nat, value: V)
      requires Valid() && index in order
      modifies this`slab
      ensures Valid() && |slab| == old(|slab|)
      ensures forall k :: 0 <= k < |order| && order[k] == index ==>
                Contents() == old(Contents())[k := (old(Contents())[k].0, value)]
    {
      slab := slab[index := slab[index].(value := value)];
      ChainedFrame(old(slab), slab, holes, freeHead);
      LinkedFrame(old(slab), slab, order, head, tail);
      TabledFrame(keying, table, old(slab), slab, order);
      forall k | 0 <= k < |order| && order[k] == index
        ensures Entries(slab, order) == old(Contents())[k := (old(Contents())[k].0, value)]
      {
      }
    }

    /** Take a slot for a new entry, reusing a hole when one exists. */
    method AllocSlot(slot: Slot<K, V>) returns (index: nat)
      requires Valid() && slot.Occupied?
      modifies this`slab, this`freeHead, this`holes
      ensures index !in old(order) && index < |slab| && slab[index] == slot
      ensures Chained(slab, holes, freeHead) && |slab| == |order| + 1 + |holes|
      ensures |slab| == if old(|slab|) > len then old(|slab|) else len + 1
      ensures forall i :: 0 <= i < old(|slab|) && i != index ==> i < |slab| && slab[i] == old(slab[i])
    {
      if freeHead.Some? {
        index := freeHead.value;
        ChainedPop(slab, holes, freeHead, slot);
        freeHead := slab[index].nextFree;
        slab := slab[index := slot];
        holes := holes[1..];
      } else {
        ChainedFrame(slab, slab + [slot], holes, freeHead);
        slab := slab + [slot];
        index := |slab| - 1;
      }
    }

    /** Insert, replacing any existing value. An existing key keeps its position. */
    method Insert(key: K, value: V) returns (previous: Option<V>)
      requires Valid() && Lawful(keying)
      modifies this
      ensures Valid()
      ensures Contents() == Put(keying, old(Contents()), key, value)
      ensures previous == Lookup(keying, old(Contents()), key)
      ensures |slab| == if old(|slab|) > len then old(|slab|) else len
    {
      var found := IndexOf(key);
      if found.Some? {
        previous := Some(slab[found.value].value);
        Overwrite(found.value, value);
      } else {
        Append(key, value);
        previous := None;
      }
    }

    method Append(key: K, value: V)
      requires Valid() && Lawful(keying)
      requires Position(keying, Contents(), key) == |order|
      modifies this
      ensures Valid()
      ensures Contents() == old(Contents()) + [(key, value)]
      ensures |slab| == if old(|slab|) > len then old(|slab|) else len
    {
      var index := AllocSlot(Occupied(key, value, tail, None));
      AppendKeeps(keying, table, old(slab), head, tail, old(freeHead), order, old(holes),
                  slab, freeHead, holes, key, value, index);
      Store(table + {(keying.hash(key), index)},
            if tail.Some? then slab[tail.value := slab[tail.value].(next := Some(index))] else slab,
            if head.None? then Some(index) else head, Some(index), freeHead, len + 1,
            order + [index], holes);
    }

    /** Remove a key, leaving the order of every other entry untouched. */
    method Remove(key: K) returns (removed: Option<V>)
      requires Valid() && Lawful(keying)
      modifies this
      ensures Valid()
      ensures Contents() == Delete(keying, old(Contents()), key)
      ensures removed == Lookup(keying, old(Contents()), key)
      ensures |slab| == old(|slab|)
    {
      var found := IndexOf(key);
      if found.Some? {
        removed := Some(slab[found.value].value);
        Unlink(found.value, Position(keying, Contents(), key));
      } else {
        removed := None;
      }
    }

    method Unlink(index: nat, ghost k: nat)
      requires Valid() && k < |order| && order[k] == index
      modifies this
      ensures Valid() && |slab| == old(|slab|)
      ensures Contents() == old(Contents())[..k] + old(Contents())[k + 1..]
    {
      UnlinkKeeps(keying, table, slab, head, tail, freeHead, order, holes, k);
      var prev, next := slab[index].prev, slab[index].next;
      Store((set e | e in table && e.1 != index), Unlinked(slab, index, freeHead),
            if prev.None? then next else head, if next.None? then prev else tail, Some(index), len - 1,
            order[..k] + order[k + 1..], [index] + holes);
    }

    /** Write every field at once. */
    method Store(table: set<(nat, nat)>, slab: seq<Slot<K, V>>, head: Option<nat>, tail: Option<nat>,
                 freeHead: Option<nat>, len: nat, ghost order: seq<nat>, ghost holes: seq<nat>)
      modifies this
      ensures this.table == table && this.slab == slab && this.head == head && this.tail == tail
      ensures this.freeHead == freeHead && this.len == len && this.order == order && this.holes == holes
    {
      this.table, this.slab, this.head, this.tail := table, slab, head, tail;
      this.freeHead, this.len, this.order, this.holes := freeHead, len, order, holes;
    }

    method Clear()
      modifies this
      ensures Valid() && Contents() == [] && |slab| == 0
    {
      table, slab, len := {}, [], 0;
      head, tail, freeHead := None, None, None;
      order, holes := [], [];
    }

    /** Walk the links from `head`, as `iter` does; `remaining` is the iterator's size hint. */
    method Iterate() returns (pairs: seq<(K, V)>)
      requires Valid()
      ensures pairs == Contents()
    {
      pairs := [];
      var next, remaining := head, len;
      while next.Some?
        invariant |pairs| <= |order| && pairs == Contents()[..|pairs|]
        invariant next == At(order, |pairs|)
        invariant remaining == |order| - |pairs|
        decreases |order| - |pairs|
      {
        assert LinksAt(slab, order, |pairs|);
        var slot := slab[next.value];
        pairs := pairs + [(slot.key, slot.value)];
        next, remaining := slot.next, remaining - 1;
      }
    }

    /** Consume the map: each entry is taken out of the slab as the walk passes it. */
    method Drain() returns (pairs: seq<(K, V)>)
      requires Valid()
      ensures pairs == Contents()
    {
      pairs := [];
      var next, left := head, slab;
      while next.Some?
        invariant |pairs| <= |order| && pairs == Contents()[..|pairs|]
        invariant next == At(order, |pairs|)
        invariant |left| == |slab|
        invariant forall k :: |pairs| <= k < |order| ==> left[order[k]] == slab[order[k]]
        decreases |order| - |pairs|
      {
        assert LinksAt(slab, order, |pairs|);
        var slot := left[next.value];
        left := left[next.value := Free(None)];
        pairs := pairs + [(slot.key, slot.value)];
        next := slot.next;
      }
    }
  }

  // ----- whole runs -----

  datatype Op<K, V> =
    | DoInsert(key: K, value: V)
    | DoRemove(key: K)
    | DoGet(key: K)
    | DoGetMut(key: K, value: V)
    | DoClear

  function Step<K, V>(q: Keying<K>, s: seq<(K, V)>, op: Op<K, V>): seq<(K, V)> {
    match op
    case DoInsert(k, v) => Put(q, s, k, v)
    case DoRemove(k) => Delete(q, s, k)
    case DoGet(_) => s
    case DoGetMut(k, v) => if Lookup(q, s, k).Some? then Put(q, s, k, v) else s
    case DoClear => []
  }

  /** The pairs a run leaves, starting from an empty map. */
  function Replay<K, V>(q: Keying<K>, ops: seq<Op<K, V>>): seq<(K, V)> {
    if ops == [] then [] else Step(q, Replay(q, ops[..|ops| - 1]), ops[|ops| - 1])
  }

  /** The largest number of entries held since the last clear. */
  function Peak<K, V>(q: Keying<K>, ops: seq<Op<K, V>>): nat {
    if ops == [] || ops[|ops| - 1].DoClear? then 0
    else
      var before, now := Peak(q, ops[..|ops| - 1]), |Replay(q, ops)|;
      if before > now then before else now
  }

  method Apply<K(!new), V>(m: OrderedMap<K, V>, op: Op<K, V>)
    requires m.Valid() && Lawful(m.keying)
    modifies m
    ensures m.Valid() && m.Contents() == Step(m.keying, old(m.Contents()), op)
    ensures |m.slab| == if op.DoClear? then 0 else if old(|m.slab|) > m.len then old(|m.slab|) else m.len
  {
    match op {
      case DoInsert(k, v) => var _ := m.Insert(k, v);
      case DoRemove(k) => var _ := m.Remove(k);
      case DoGet(k) => var _ := m.Get(k);
      case DoGetMut(k, v) => var _ := m.Update(k, v);
      case DoClear => m.Clear();
    }
  }

  /** Every run of the slab structure is a run on the plain sequence, and the slab never outgrows its peak. */
  method Run<K(!new), V>(q: Keying<K>, ops: seq<Op<K, V>>) returns (m: OrderedMap<K, V>)
    requires Lawful(q)
    ensures m.Valid() && m.keying == q
    ensures m.Contents() == Replay(q, ops)
    ensures |m.slab| == Peak(q, ops)
  {
    m := new OrderedMap(q);
    for i := 0 to |ops|
      invariant fresh(m) && m.Valid() && m.keying == q
      invariant m.Contents() == Replay(q, ops[..i]) && |m.slab| == Peak(q, ops[..i])
    {
      assert ops[..i + 1][..i] == ops[..i];
      Apply(m, ops[i]);
    }
    assert ops[..|ops|] == ops;
  }

  /** What a key maps to after a run, read off the operations alone. */
  function Meaning<K, V>(q: Keying<K>, ops: seq<Op<K, V>>, k: K): Option<V> {
    if ops == [] then None
    else
      var earlier, last := ops[..|ops| - 1], ops[|ops| - 1];
      match last
      case DoClear => None
      case DoInsert(j, v) => if q.same(j, k) then Some(v) else Meaning(q, earlier, k)
      case DoRemove(j) => if q.same(j, k) then None else Meaning(q, earlier, k)
      case DoGetMut(j, v) =>
        if q.same(j, k) && Meaning(q, earlier, j).Some? then Some(v) else Meaning(q, earlier, k)
      case DoGet(_) => Meaning(q, earlier, k)
  }

  /** When the entry a key has after a run was created: the step that inserted it while it was absent. */
  function Born<K, V>(q: Keying<K>, ops: seq<Op<K, V>>, k: K): nat {
    if ops == [] then 0
    else
      var earlier, last := ops[..|ops| - 1], ops[|ops| - 1];
      if last.DoInsert? && q.same(last.key, k) && Meaning(q, earlier, k).None? then |earlier|
      else Born(q, earlier, k)
  }

  lemma {:induction false} ReplayDistinct<K(!new), V>(q: Keying<K>, ops: seq<Op<K, V>>)
    requires Lawful(q)
    ensures DistinctKeys(q, Replay(q, ops))
  {
    if ops != [] {
      var earlier, last := ops[..|ops| - 1], ops[|ops| - 1];
      ReplayDistinct(q, earlier);
      var s := Replay(q, earlier);
      match last {
        case DoInsert(k, v) => PutKeepsDistinct(q, s, k, v);
        case DoRemove(k) => if Position(q, s, k) < |s| { DistinctAfterRemoval(q, s, Position(q, s, k)); }
        case DoGetMut(k, v) => PutKeepsDistinct(q, s, k, v);
        case _ =>
      }
    }
  }

  /** A lookup after a run answers with the last write that still stands. */
  lemma {:induction false} LastWriteWins<K(!new), V>(q: Keying<K>, ops: seq<Op<K, V>>, k: K)
    requires Lawful(q)
    ensures Lookup(q, Replay(q, ops), k) == Meaning(q, ops, k)
  {
    if ops != [] {
      var earlier, last := ops[..|ops| - 1], ops[|ops| - 1];
      ReplayDistinct(q, earlier);
      LastWriteWins(q, earlier, k);
      var s := Replay(q, earlier);
      match last {
        case DoInsert(j, v) => LookupAfterPut(q, s, j, v, k);
        case DoRemove(j) => LookupAfterDelete(q, s, j, k);
        case DoGetMut(j, v) => LookupAfterPut(q, s, j, v, k); LastWriteWins(q, earlier, j);
        case _ =>
      }
    }
  }

  /** Where the entry at position `i` after the last step of `ops` was before it; `|s|` for a new entry. */
  ghost function Origin<K, V>(q: Keying<K>, ops: seq<Op<K, V>>, i: nat): nat
    requires ops != []
  {
    var s, last := Replay(q, ops[..|ops| - 1]), ops[|ops| - 1];
    if last.DoRemove? && Position(q, s, last.key) <= i then i + 1 else i
  }

  /** An entry that a step finds in the map keeps its creation time, and one that it adds is the newest. */
  lemma BornStep<K(!new), V>(q: Keying<K>, ops: seq<Op<K, V>>, i: nat)
    requires Lawful(q) && ops != [] && i < |Replay(q, ops)|
    ensures var earlier := ops[..|ops| - 1];
            var s, from := Replay(q, earlier), Origin(q, ops, i);
            && from <= |s|
            && Born(q, ops, Replay(q, ops)[i].0) == if from < |s| then Born(q, earlier, s[from].0) else |earlier|
  {
    var earlier := ops[..|ops| - 1];
    OriginKey(q, ops, i);
    LastWriteWins(q, earlier, Replay(q, ops)[i].0);
  }

  lemma OriginKey<K(!new), V>(q: Keying<K>, ops: seq<Op<K, V>>, i: nat)
    requires Lawful(q) && ops != [] && i < |Replay(q, ops)|
    ensures var last := ops[|ops| - 1];
            var s, k, from := Replay(q, ops[..|ops| - 1]), Replay(q, ops)[i].0, Origin(q, ops, i);
            if from < |s| then k == s[from].0 && Lookup(q, s, k).Some?
            else from == |s| && last.DoInsert? && k == last.key && Lookup(q, s, k).None?
  {
    var s, from := Replay(q, ops[..|ops| - 1]), Origin(q, ops, i);
    assert from < |s| ==> q.same(s[from].0, s[from].0);
  }

  /** Iteration order is creation order, whatever was overwritten, removed or re-inserted on the way. */
  lemma {:induction false} InsertionOrder<K(!new), V>(q: Keying<K>, ops: seq<Op<K, V>>)
    requires Lawful(q)
    ensures var s := Replay(q, ops);
            && (forall i :: 0 <= i < |s| ==> Born(q, ops, s[i].0) < |ops|)
            && (forall i, j :: 0 <= i < j < |s| ==> Born(q, ops, s[i].0) < Born(q, ops, s[j].0))
  {
    if ops != [] {
      InsertionOrder(q, ops[..|ops| - 1]);
      var s := Replay(q, ops);
      forall i | 0 <= i < |s| ensures Born(q, ops, s[i].0) < |ops| {
        BornStep(q, ops, i);
      }
      forall i, j | 0 <= i < j < |s| ensures Born(q, ops, s[i].0) < Born(q, ops, s[j].0) {
        BornStep(q, ops, i);
        BornStep(q, ops, j);
      }
    }
  }
}
