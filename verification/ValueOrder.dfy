/** Which of two values comes first (src/lib.rs, src/ordered.rs), in terms of their parts alone. */
module ValueOrder {
  import opened Wrappers
  import opened Values
  import opened Orderings
  import Canonical
  import opened ValueContract

  type Entries = seq<(Value, Value)>

  // ----- different variants -----

  /** The variants in their order. */
  function Kinds(v: Value): seq<bool> {
    [v.Unit?, v.Bool?, v.Int?, v.Float?, v.Str?, v.List?, v.Bytes?, v.Map?, v.Set?, v.Tuple?, v.Optional?, v.Outcome?, v.Spelled?,
     v.Opaque?]
  }

  predicate IsKind(v: Value, i: nat) { i < |Kinds(v)| && Kinds(v)[i] }

  predicate EarlierKind(a: Value, b: Value) { exists i: nat, j: nat :: i < j < |Kinds(a)| && IsKind(a, i) && IsKind(b, j) }

  lemma KindIsOrder(v: Value, i: nat)
    ensures IsKind(v, i) <==> VariantOrder(v) == i
  {
  }

  lemma EarlierKindIsLess(a: Value, b: Value)
    ensures EarlierKind(a, b) <==> VariantOrder(a) < VariantOrder(b)
  {
    KindIsOrder(a, VariantOrder(a));
    KindIsOrder(b, VariantOrder(b));
    if i: nat, j: nat :| i < j < |Kinds(a)| && IsKind(a, i) && IsKind(b, j) {
      KindIsOrder(a, i);
      KindIsOrder(b, j);
    }
  }

  // ----- leaves -----

  predicate FloatPrecedes(x: FloatValue, y: FloatValue) {
    || (x.NegativeInfinity? && !y.NegativeInfinity?)
    || (x.Finite? && y.Finite? && x.number < y.number)
    || (x.Finite? && (y.PositiveInfinity? || y.NotANumber?))
    || (x.PositiveInfinity? && y.NotANumber?)
  }

  /** Up to position `n` the numbers are the same, and there the first is smaller or ends. */
  predicate IntsDiffer(s: seq<int>, t: seq<int>, n: nat) {
    && n <= |s| && n < |t| && s[..n] == t[..n]
    && (n < |s| ==> s[n] < t[n])
  }

  lemma {:induction false} IntsFirstDifference(s: seq<int>, t: seq<int>)
    ensures CompareInts(s, t) == Less <==> exists n: nat :: IntsDiffer(s, t, n)
  {
    if s != [] && t != [] && s[0] == t[0] {
      IntsFirstDifference(s[1..], t[1..]);
      assert s == [s[0]] + s[1..] && t == [t[0]] + t[1..];
      if n: nat :| IntsDiffer(s[1..], t[1..], n) {
        assert s[..n + 1] == [s[0]] + s[1..][..n] && t[..n + 1] == [t[0]] + t[1..][..n];
        assert IntsDiffer(s, t, n + 1);
      }
      if n: nat :| IntsDiffer(s, t, n) {
        assert s[1..][..n - 1] == s[..n][1..] && t[1..][..n - 1] == t[..n][1..];
        assert IntsDiffer(s[1..], t[1..], n - 1);
      }
    } else if s == [] && t != [] {
      assert IntsDiffer(s, t, 0);
    } else if s != [] && t != [] {
      if s[0] < t[0] {
        assert IntsDiffer(s, t, 0);
      }
      if n: nat :| IntsDiffer(s, t, n) {
        assert n > 0 ==> s[..n][0] == t[..n][0];
      }
    }
  }

  /** The same for texts, by code point. */
  predicate TextsDiffer(s: string, t: string, n: nat) {
    && n <= |s| && n < |t| && s[..n] == t[..n]
    && (n < |s| ==> s[n] as int < t[n] as int)
  }

  lemma TextsFirstDifference(s: string, t: string)
    ensures CompareInts(Codes(s), Codes(t)) == Less <==> exists n: nat :: TextsDiffer(s, t, n)
  {
    IntsFirstDifference(Codes(s), Codes(t));
    forall n: nat | n <= |s| && n <= |t| ensures s[..n] == t[..n] <==> Codes(s)[..n] == Codes(t)[..n] {
      CodesEqual(s[..n], t[..n]);
      assert Codes(s[..n]) == Codes(s)[..n] && Codes(t[..n]) == Codes(t)[..n];
    }
    forall n: nat ensures TextsDiffer(s, t, n) <==> IntsDiffer(Codes(s), Codes(t), n) {
    }
  }

  // ----- lists, and maps in the order of their keys -----

  /** Up to position `n` the items tie, and there the first comes first or ends. */
  predicate ItemsDiffer(x: seq<Value>, y: seq<Value>, n: nat) {
    && n <= |x| && n < |y|
    && (forall i :: 0 <= i < n ==> Cmp(x[i], y[i]) == Equal)
    && (n < |x| ==> Cmp(x[n], y[n]) == Less)
  }

  lemma ItemsShift(x: seq<Value>, y: seq<Value>, n: nat)
    requires x != [] && y != []
    ensures ItemsDiffer(x, y, n + 1) <==> Cmp(x[0], y[0]) == Equal && ItemsDiffer(x[1..], y[1..], n)
  {
    if ItemsDiffer(x, y, n + 1) {
      assert forall i :: 0 <= i < n ==> x[1..][i] == x[i + 1] && y[1..][i] == y[i + 1];
    }
    if Cmp(x[0], y[0]) == Equal && ItemsDiffer(x[1..], y[1..], n) {
      forall i | 0 <= i < n + 1 ensures Cmp(x[i], y[i]) == Equal {
        assert i > 0 ==> x[i] == x[1..][i - 1] && y[i] == y[1..][i - 1];
      }
    }
  }

  lemma {:induction false} ItemsFirstDifference(x: seq<Value>, y: seq<Value>)
    ensures CmpAll(x, y) == Less <==> exists n: nat :: ItemsDiffer(x, y, n)
    decreases x
  {
    if x == [] || y == [] {
      if y != [] {
        assert ItemsDiffer(x, y, 0);
      }
    } else {
      ItemsFirstDifference(x[1..], y[1..]);
      if Cmp(x[0], y[0]) == Less {
        assert ItemsDiffer(x, y, 0);
      }
      if n: nat :| ItemsDiffer(x[1..], y[1..], n) {
        ItemsShift(x, y, n);
      }
      if n: nat :| ItemsDiffer(x, y, n) && n > 0 {
        ItemsShift(x, y, n - 1);
      }
    }
  }

  predicate PairPrecedes(e: (Value, Value), f: (Value, Value)) {
    Cmp(e.0, f.0) == Less || (Cmp(e.0, f.0) == Equal && Cmp(e.1, f.1) == Less)
  }

  predicate PairTies(e: (Value, Value), f: (Value, Value)) { Cmp(e.0, f.0) == Equal && Cmp(e.1, f.1) == Equal }

  /** The same for entries, by key and then by value. */
  predicate PairsDiffer(x: Entries, y: Entries, n: nat) {
    && n <= |x| && n < |y|
    && (forall i :: 0 <= i < n ==> PairTies(x[i], y[i]))
    && (n < |x| ==> PairPrecedes(x[n], y[n]))
  }

  lemma PairsShift(x: Entries, y: Entries, n: nat)
    requires x != [] && y != []
    ensures PairsDiffer(x, y, n + 1) <==> PairTies(x[0], y[0]) && PairsDiffer(x[1..], y[1..], n)
  {
    if PairsDiffer(x, y, n + 1) {
      assert forall i :: 0 <= i < n ==> x[1..][i] == x[i + 1] && y[1..][i] == y[i + 1];
    }
    if PairTies(x[0], y[0]) && PairsDiffer(x[1..], y[1..], n) {
      forall i | 0 <= i < n + 1 ensures PairTies(x[i], y[i]) {
        assert i > 0 ==> x[i] == x[1..][i - 1] && y[i] == y[1..][i - 1];
      }
    }
  }

  lemma {:induction false} PairsFirstDifference(x: Entries, y: Entries)
    ensures CmpPairs(x, y) == Less <==> exists n: nat :: PairsDiffer(x, y, n)
    decreases x
  {
    if x == [] || y == [] {
      if y != [] {
        assert PairsDiffer(x, y, 0);
      }
    } else {
      PairsFirstDifference(x[1..], y[1..]);
      if PairPrecedes(x[0], y[0]) {
        assert PairsDiffer(x, y, 0);
      }
      if n: nat :| PairsDiffer(x[1..], y[1..], n) {
        PairsShift(x, y, n);
      }
      if n: nat :| PairsDiffer(x, y, n) && n > 0 {
        PairsShift(x, y, n - 1);
      }
    }
  }

  // ----- the entries of a map in ascending order of their keys -----

  ghost predicate AscendingKeys(s: Entries) { forall i, j :: 0 <= i < j < |s| ==> Cmp(s[i].0, s[j].0) == Less }

  ghost predicate Enumerates(s: Entries, m: Entries) { multiset(s) == multiset(m) && AscendingKeys(s) }

  lemma CmpFlips(a: Value, b: Value)
    ensures Cmp(b, a) == Cmp(a, b).Flip()
  {
    CmpCanon(a, b);
    CmpCanon(b, a);
    LexFlip(Canonical.Canon(a), Canonical.Canon(b));
  }

  lemma CmpChains(a: Value, b: Value, c: Value)
    requires Cmp(a, b) == Less && Cmp(b, c) == Less
    ensures Cmp(a, c) == Less
  {
    CmpCanon(a, b);
    CmpCanon(b, c);
    CmpCanon(a, c);
    LexChain(Canonical.Canon(a), Canonical.Canon(b), Canonical.Canon(c));
  }

  lemma {:induction false} InsertKeepsEntries(e: (Value, Value), s: Entries)
    ensures multiset(InsertPair(e, s)) == multiset(s) + multiset{e}
    decreases s
  {
    if s != [] && Cmp(e.0, s[0].0) == Greater {
      InsertKeepsEntries(e, s[1..]);
      assert s == [s[0]] + s[1..];
    }
  }

  lemma {:induction false} SortKeepsEntries(m: Entries)
    ensures multiset(SortPairs(m)) == multiset(m)
    decreases m
  {
    if m != [] {
      SortKeepsEntries(m[1..]);
      InsertKeepsEntries(m[0], SortPairs(m[1..]));
      assert m == [m[0]] + m[1..];
    }
  }

  ghost predicate NoTie(k: Value, s: Entries) { forall i :: 0 <= i < |s| ==> Cmp(k, s[i].0) != Equal }

  lemma FrontAscends(e: (Value, Value), s: Entries)
    requires AscendingKeys(s) && (forall i :: 0 <= i < |s| ==> Cmp(e.0, s[i].0) == Less)
    ensures AscendingKeys([e] + s)
  {
    var t := [e] + s;
    forall i, j | 0 <= i < j < |t| ensures Cmp(t[i].0, t[j].0) == Less {
      assert t[j] == s[j - 1] && (i > 0 ==> t[i] == s[i - 1]);
    }
  }

  lemma {:induction false} InsertAscends(e: (Value, Value), s: Entries)
    requires AscendingKeys(s) && NoTie(e.0, s)
    ensures AscendingKeys(InsertPair(e, s))
    decreases s
  {
    if s == [] {
    } else if Cmp(e.0, s[0].0) != Greater {
      forall i | 0 <= i < |s| ensures Cmp(e.0, s[i].0) == Less {
        if i > 0 {
          CmpChains(e.0, s[0].0, s[i].0);
        }
      }
      FrontAscends(e, s);
    } else {
      var r := InsertPair(e, s[1..]);
      InsertAscends(e, s[1..]);
      InsertKeepsEntries(e, s[1..]);
      CmpFlips(e.0, s[0].0);
      forall i | 0 <= i < |r| ensures Cmp(s[0].0, r[i].0) == Less {
        assert r[i] in multiset(r);
        if r[i] in s[1..] {
          var j :| 0 <= j < |s[1..]| && s[1..][j] == r[i];
        }
      }
      FrontAscends(s[0], r);
    }
  }

  ghost predicate KeysDiffer(m: Entries) { forall i, j :: 0 <= i < j < |m| ==> Cmp(m[i].0, m[j].0) != Equal }

  lemma {:induction false} SortEnumerates(m: Entries)
    requires KeysDiffer(m)
    ensures Enumerates(SortPairs(m), m)
    decreases m
  {
    if m != [] {
      var r := SortPairs(m[1..]);
      SortEnumerates(m[1..]);
      SortKeepsEntries(m);
      forall i | 0 <= i < |r| ensures Cmp(m[0].0, r[i].0) != Equal {
        assert r[i] in multiset(r);
        var j :| 0 <= j < |m[1..]| && m[1..][j] == r[i];
      }
      InsertAscends(m[0], r);
    }
  }

  lemma SameFirst(s: Entries, t: Entries)
    requires AscendingKeys(s) && AscendingKeys(t) && multiset(s) == multiset(t) && s != []
    ensures t != [] && s[0] == t[0]
  {
    assert s[0] in multiset(t);
    var j :| 0 <= j < |t| && t[j] == s[0];
    if j > 0 {
      assert t[0] in multiset(s);
      var i :| 0 <= i < |s| && s[i] == t[0];
      CmpFlips(s[0].0, t[0].0);
      assert false;
    }
  }

  lemma WithoutFirst(s: Entries)
    requires s != []
    ensures multiset(s[1..]) == multiset(s) - multiset{s[0]} && s == [s[0]] + s[1..]
  {
    assert s == [s[0]] + s[1..];
  }

  /** A map has one enumeration. */
  lemma {:induction false} EnumerationUnique(s: Entries, t: Entries)
    requires AscendingKeys(s) && AscendingKeys(t) && multiset(s) == multiset(t)
    ensures s == t
  {
    if s == [] {
      assert |multiset(t)| == |t|;
    } else {
      SameFirst(s, t);
      WithoutFirst(s);
      WithoutFirst(t);
      EnumerationUnique(s[1..], t[1..]);
    }
  }

  /** The entries in ascending order of their keys first differ where the first map's comes first, or end there. */
  ghost predicate EntriesPrecede(x: Entries, y: Entries) {
    exists s, t, n: nat :: Enumerates(s, x) && Enumerates(t, y) && PairsDiffer(s, t, n)
  }

  lemma EntriesFirstDifference(x: Entries, y: Entries)
    requires KeysDiffer(x) && KeysDiffer(y)
    ensures CmpPairs(SortPairs(x), SortPairs(y)) == Less <==> EntriesPrecede(x, y)
  {
    SortEnumerates(x);
    SortEnumerates(y);
    PairsFirstDifference(SortPairs(x), SortPairs(y));
    if n: nat :| PairsDiffer(SortPairs(x), SortPairs(y), n) {
      assert Enumerates(SortPairs(x), x) && Enumerates(SortPairs(y), y);
    }
    if s, t, n: nat :| Enumerates(s, x) && Enumerates(t, y) && PairsDiffer(s, t, n) {
      EnumerationUnique(s, SortPairs(x));
      EnumerationUnique(t, SortPairs(y));
    }
  }

  // ----- the order -----

  /** `a` comes before `b`. */
  ghost predicate Precedes(a: Value, b: Value) { EarlierKind(a, b) || PrecedesWithin(a, b) }

  /** The same for two values of one variant. */
  ghost predicate PrecedesWithin(a: Value, b: Value) {
    match (a, b)
    case (Bool(x), Bool(y)) => !x && y
    case (Int(x), Int(y)) => x < y
    case (Float(x), Float(y)) => FloatPrecedes(x, y)
    case (Str(x), Str(y)) => exists n: nat :: TextsDiffer(x, y, n)
    case (List(x), List(y)) => exists n: nat :: ItemsDiffer(x, y, n)
    case (Bytes(x), Bytes(y)) => exists n: nat :: IntsDiffer(x, y, n)
    case (Map(_, x), Map(_, y)) => EntriesPrecede(x, y)
    case (Set(_, x), Set(_, y)) => EntriesPrecede(x, y)
    case (Tuple(x1, x2), Tuple(y1, y2)) => PairPrecedes((x1, x2), (y1, y2))
    case (Optional(x), Optional(y)) => y.Some? && (x.None? || Cmp(x.value, y.value) == Less)
    case (Outcome(p, x), Outcome(q, y)) => (p && !q) || (p == q && Cmp(x, y) == Less)
    case (Spelled(x), Spelled(y)) => x < y
    case (Opaque(x), Opaque(y)) => exists n: nat :: IntsDiffer(x, y, n)
    case _ => false
  }

  lemma WellFormedKeysDiffer(env: Env, m: Entries)
    requires PairsWellFormed(env, m) && DistinctEntries(env, m)
    ensures KeysDiffer(m)
  {
    forall i, j | 0 <= i < j < |m| ensures Cmp(m[i].0, m[j].0) != Equal {
      PairsWellFormedAt(env, m, i);
      PairsWellFormedAt(env, m, j);
      OrderIsTotal(env, m[i].0, m[j].0, m[j].0);
    }
  }

  lemma EntriesOrder(env: Env, x: Entries, y: Entries)
    requires PairsWellFormed(env, x) && DistinctEntries(env, x) && PairsWellFormed(env, y) && DistinctEntries(env, y)
    ensures CmpPairs(SortPairs(x), SortPairs(y)) == Less <==> EntriesPrecede(x, y)
  {
    WellFormedKeysDiffer(env, x);
    WellFormedKeysDiffer(env, y);
    EntriesFirstDifference(x, y);
  }

  lemma LeafOrder(a: Value, b: Value)
    requires IsLeaf(a) && VariantOrder(a) == VariantOrder(b)
    ensures CompareLeaf(a, b) == Less <==> PrecedesWithin(a, b)
  {
    match a {
      case Str(x) => TextsFirstDifference(x, b.s);
      case Bytes(x) => IntsFirstDifference(x, b.bytes);
      case Opaque(x) => IntsFirstDifference(x, b.bytes);
      case _ =>
    }
  }

  lemma OrderWithin(env: Env, a: Value, b: Value)
    requires WellFormed(env, a) && WellFormed(env, b) && VariantOrder(a) == VariantOrder(b)
    ensures Cmp(a, b) == Less <==> PrecedesWithin(a, b)
  {
    match a {
      case List(x) => ItemsFirstDifference(x, b.items);
      case Map(_, x) => EntriesOrder(env, x, b.entries);
      case Set(_, x) => EntriesOrder(env, x, b.entries);
      case Tuple(_, _) =>
      case Optional(_) =>
      case Outcome(_, _) =>
      case _ => LeafOrder(a, b);
    }
  }

  lemma WithinOneKind(a: Value, b: Value)
    requires VariantOrder(a) != VariantOrder(b)
    ensures !PrecedesWithin(a, b)
  {
  }

  /** A value is less than another exactly when it comes before it; so it ties exactly when neither does. */
  lemma OrderIs(env: Env, a: Value, b: Value)
    requires WellFormed(env, a) && WellFormed(env, b)
    ensures Cmp(a, b) == Less <==> Precedes(a, b)
    ensures Cmp(a, b) == Greater <==> Cmp(b, a) == Less
  {
    CmpFlips(a, b);
    EarlierKindIsLess(a, b);
    if VariantOrder(a) == VariantOrder(b) {
      OrderWithin(env, a, b);
    } else {
      WithinOneKind(a, b);
    }
  }
}
