/**
 Equality, hashing and ordering of values (src/lib.rs, src/ordered.rs). Map
 equality looks keys up by hash, the hash adds up the entries' hashes, and the
 order sorts before it compares; all three are shown to be functions of one
 canonical form, so they agree however the maps were built.
 */
module ValueContract {
  import Arithmetic
  import opened Wrappers
  import opened Values
  import opened Orderings
  import opened Canonical
  import opened Pairs

  /**
   The hasher, as a function of its seed and what it is fed; a float's canonical
   bits; and of JSON numbers kept as spelled, the number at each address and the
   identifier of their type.
   */
  datatype Env = Env(sip: (nat, seq<int>) -> nat, bits: FloatValue -> int, number: nat -> real, spelledType: int)

  // ----- hashing -----

  /** What a value feeds its hasher. */
  function Feed(env: Env, v: Value): seq<int>
    decreases v
  {
    [VariantOrder(v)] +
    match v
    case Unit => []
    case Bool(b) => [if b then 1 else 0]
    case Int(i) => [i]
    case Float(f) => [env.bits(f)]
    case Str(s) => Codes(s) + [0xff]
    case List(items) => [|items|] + FeedAll(env, items)
    case Bytes(bytes) => [|bytes|] + bytes
    case Map(_, entries) => [|entries|, SumPairs(env, true, entries) % Arithmetic.TWO_64]
    case Set(_, entries) => [|entries|, SumPairs(env, false, entries) % Arithmetic.TWO_64]
    case Tuple(a, b) => Feed(env, a) + Feed(env, b)
    case Optional(None) => [0]
    case Optional(Some(x)) => [1] + Feed(env, x)
    case Outcome(p, x) => [if p then 0 else 1] + Feed(env, x)
    case Spelled(address) => [env.spelledType, address]
    case Opaque(bytes) => [|bytes|] + bytes
  }

  function FeedAll(env: Env, items: seq<Value>): seq<int>
    decreases items
  {
    if items == [] then [] else Feed(env, items[0]) + FeedAll(env, items[1..])
  }

  /** The sum of the entries' own hashes; a set's unit values feed nothing. */
  function SumPairs(env: Env, valued: bool, entries: seq<(Value, Value)>): nat
    decreases entries
  {
    if entries == [] then 0 else EntryHash(env, valued, entries[0]) + SumPairs(env, valued, entries[1..])
  }

  /** The fixed-key hasher every map uses for its entries. */
  function EntryHash(env: Env, valued: bool, e: (Value, Value)): nat
    decreases e
  {
    match e case (k, v) => env.sip(0, Feed(env, k) + if valued then Feed(env, v) else [])
  }

  /** The map's hash loop, with its wrapping addition. */
  method CombineEntries(env: Env, valued: bool, entries: seq<(Value, Value)>) returns (combined: nat)
    ensures combined == SumPairs(env, valued, entries) % Arithmetic.TWO_64
  {
    combined := 0;
    for i := 0 to |entries|
      invariant combined == SumPairs(env, valued, entries[..i]) % Arithmetic.TWO_64
    {
      SumPairsSnoc(env, valued, entries[..i], entries[i]);
      AddWrapped(SumPairs(env, valued, entries[..i]), EntryHash(env, valued, entries[i]));
      assert entries[..i + 1] == entries[..i] + [entries[i]];
      combined := (combined + EntryHash(env, valued, entries[i])) % Arithmetic.TWO_64;
    }
    assert entries[..|entries|] == entries;
  }

  lemma AddWrapped(sum: nat, x: nat)
    ensures (sum % Arithmetic.TWO_64 + x) % Arithmetic.TWO_64 == (sum + x) % Arithmetic.TWO_64
  {
  }

  lemma {:induction false} SumPairsSnoc(env: Env, valued: bool, s: seq<(Value, Value)>, e: (Value, Value))
    ensures SumPairs(env, valued, s + [e]) == SumPairs(env, valued, s) + EntryHash(env, valued, e)
  {
    if s != [] {
      SumPairsSnoc(env, valued, s[1..], e);
      assert (s + [e])[1..] == s[1..] + [e];
    }
  }

  // ----- equality -----

  function Eq(env: Env, a: Value, b: Value): bool
    decreases Size(a) + Size(b), 0, 0
  {
    VariantOrder(a) == VariantOrder(b) &&
    match a
    case List(x) => |x| == |b.items| && EqAll(env, x, b.items)
    case Map(_, x) => |x| == |b.entries| && EqInto(env, x, b.seed, b.entries)
    case Set(_, x) => |x| == |b.entries| && EqInto(env, x, b.seed, b.entries)
    case Tuple(x1, x2) => Eq(env, x1, b.first) && Eq(env, x2, b.second)
    case Optional(None) => b.some.None?
    case Optional(Some(x)) => b.some.Some? && Eq(env, x, b.some.value)
    case Outcome(p, x) => p == b.success && Eq(env, x, b.payload)
    case _ => a == b
  }

  function EqAll(env: Env, s: seq<Value>, t: seq<Value>): bool
    requires |s| == |t|
    decreases SizeAll(s) + SizeAll(t), 1, |s|
  {
    s == [] || (Eq(env, s[0], t[0]) && EqAll(env, s[1..], t[1..]))
  }

  /** Every entry of `x` is found by lookup among `y`, with an equal value. */
  function EqInto(env: Env, x: seq<(Value, Value)>, seed: nat, y: seq<(Value, Value)>): bool
    decreases SizePairs(x) + SizePairs(y), 1, |x|
  {
    x == [] ||
    (var r := Find(env, seed, y, x[0].0);
     r < |y| && (SizePairsAt(y, r); Eq(env, y[r].1, x[0].1)) && EqInto(env, x[1..], seed, y))
  }

  /** A hash lookup: the stored key must hash alike under the map's own seed and then compare equal. */
  function Find(env: Env, seed: nat, y: seq<(Value, Value)>, k: Value): (r: nat)
    ensures r <= |y|
    decreases SizePairs(y) + Size(k), 0, |y|
  {
    if y == [] then 0
    else if env.sip(seed, Feed(env, y[0].0)) == env.sip(seed, Feed(env, k)) && Eq(env, y[0].0, k) then 0
    else 1 + Find(env, seed, y[1..], k)
  }

  // ----- ordering -----

  function Cmp(a: Value, b: Value): Ordering
    decreases Size(a) + Size(b), 0, 0
  {
    if VariantOrder(a) != VariantOrder(b) then CompareInt(VariantOrder(a), VariantOrder(b))
    else match a
      case List(x) => CmpAll(x, b.items)
      case Map(_, x) => CmpPairs(SortPairs(x), SortPairs(b.entries))
      case Set(_, x) => CmpPairs(SortPairs(x), SortPairs(b.entries))
      case Tuple(x1, x2) => Cmp(x1, b.first).Then(Cmp(x2, b.second))
      case Optional(None) => CompareBool(false, b.some.Some?)
      case Optional(Some(x)) => if b.some.Some? then Cmp(x, b.some.value) else Greater
      case Outcome(p, x) => CompareBool(!p, !b.success).Then(Cmp(x, b.payload))
      case _ => CompareLeaf(a, b)
  }

  function CmpAll(s: seq<Value>, t: seq<Value>): Ordering
    decreases SizeAll(s) + SizeAll(t), 1, |s|
  {
    if s == [] || t == [] then CompareInt(|s|, |t|)
    else Cmp(s[0], t[0]).Then(CmpAll(s[1..], t[1..]))
  }

  function CmpPairs(s: seq<(Value, Value)>, t: seq<(Value, Value)>): Ordering
    decreases SizePairs(s) + SizePairs(t), 1, |s|
  {
    if s == [] || t == [] then CompareInt(|s|, |t|)
    else Cmp(s[0].0, t[0].0).Then(Cmp(s[0].1, t[0].1)).Then(CmpPairs(s[1..], t[1..]))
  }

  /** The stable sort by key that the order runs first. */
  function SortPairs(m: seq<(Value, Value)>): (r: seq<(Value, Value)>)
    ensures SizePairs(r) == SizePairs(m)
    decreases SizePairs(m), 1, |m|
  {
    if m == [] then [] else InsertPair(m[0], SortPairs(m[1..]))
  }

  function InsertPair(e: (Value, Value), s: seq<(Value, Value)>): (r: seq<(Value, Value)>)
    ensures SizePairs(r) == SizePair(e) + SizePairs(s)
    decreases SizePair(e) + SizePairs(s), 0, |s|
  {
    if s == [] || Cmp(e.0, s[0].0) != Greater then [e] + s
    else [s[0]] + InsertPair(e, s[1..])
  }

  // ----- well-formed values: no map or set holds two equal keys -----

  ghost predicate WellFormed(env: Env, v: Value) {
    match v
    case List(items) => AllWellFormed(env, items)
    case Map(_, entries) => PairsWellFormed(env, entries) && DistinctEntries(env, entries)
    case Set(_, entries) => PairsWellFormed(env, entries) && DistinctEntries(env, entries) &&
                            forall e :: e in entries ==> e.1 == Unit
    case Tuple(a, b) => WellFormed(env, a) && WellFormed(env, b)
    case Optional(Some(x)) => WellFormed(env, x)
    case Outcome(_, x) => WellFormed(env, x)
    case _ => true
  }

  ghost predicate AllWellFormed(env: Env, items: seq<Value>) {
    items == [] || (WellFormed(env, items[0]) && AllWellFormed(env, items[1..]))
  }

  ghost predicate PairsWellFormed(env: Env, entries: seq<(Value, Value)>) {
    entries == [] || (PairWellFormed(env, entries[0]) && PairsWellFormed(env, entries[1..]))
  }

  ghost predicate PairWellFormed(env: Env, e: (Value, Value)) {
    match e case (k, v) => WellFormed(env, k) && WellFormed(env, v)
  }

  ghost predicate DistinctEntries(env: Env, m: seq<(Value, Value)>) {
    forall i, j :: 0 <= i < j < |m| ==> !Eq(env, m[i].0, m[j].0)
  }

  lemma {:induction false} PairsWellFormedAt(env: Env, m: seq<(Value, Value)>, i: nat)
    requires PairsWellFormed(env, m) && i < |m|
    ensures WellFormed(env, m[i].0) && WellFormed(env, m[i].1)
  {
    if i == 0 {
      assert PairWellFormed(env, m[0]);
    } else {
      PairsWellFormedAt(env, m[1..], i - 1);
    }
  }

  // ----- the order only sees canonical forms -----

  lemma {:induction false} CmpCanon(a: Value, b: Value)
    ensures Cmp(a, b) == Lex(Canon(a), Canon(b))
    decreases Size(a) + Size(b), 0, 0
  {
    CanonVariant(a);
    CanonVariant(b);
    if VariantOrder(a) == VariantOrder(b) {
      match a {
        case List(x) => CmpAllCanon(x, b.items);
        case Map(_, x) =>
          SortCanon(x);
          SortCanon(b.entries);
          CmpPairsCanon(SortPairs(x), SortPairs(b.entries));
        case Set(_, x) =>
          SortCanon(x);
          SortCanon(b.entries);
          CmpPairsCanon(SortPairs(x), SortPairs(b.entries));
        case Tuple(x1, x2) => CmpCanon(x1, b.first); CmpCanon(x2, b.second);
        case Optional(None) =>
        case Optional(Some(x)) => if b.some.Some? { CmpCanon(x, b.some.value); }
        case Outcome(_, x) => CmpCanon(x, b.payload);
        case _ =>
      }
    }
  }

  lemma {:induction false} CmpAllCanon(s: seq<Value>, t: seq<Value>)
    ensures CmpAll(s, t) == LexAll(CanonAll(s), CanonAll(t))
    decreases SizeAll(s) + SizeAll(t), 1, |s|
  {
    CanonAllLength(s);
    CanonAllLength(t);
    if s != [] && t != [] {
      CmpCanon(s[0], t[0]);
      CmpAllCanon(s[1..], t[1..]);
    }
  }

  lemma {:induction false} CanonAllLength(s: seq<Value>)
    ensures |CanonAll(s)| == |s|
  {
    if s != [] {
      CanonAllLength(s[1..]);
    }
  }

  lemma CanonPairsLength(s: seq<(Value, Value)>)
    ensures |CanonPairs(s)| == |s|
  {
    if s != [] {
      CanonPairsAt(s, 0);
    }
  }

  lemma {:induction false} CmpPairsCanon(s: seq<(Value, Value)>, t: seq<(Value, Value)>)
    ensures CmpPairs(s, t) == LexPairs(CanonPairs(s), CanonPairs(t))
    decreases SizePairs(s) + SizePairs(t), 1, |s|
  {
    CanonPairsLength(s);
    CanonPairsLength(t);
    if s != [] && t != [] {
      CmpCanon(s[0].0, t[0].0);
      CmpCanon(s[0].1, t[0].1);
      CmpPairsCanon(s[1..], t[1..]);
    }
  }

  lemma {:induction false} SortCanon(m: seq<(Value, Value)>)
    ensures CanonPairs(SortPairs(m)) == SortLex(CanonPairs(m))
    decreases SizePairs(m), 1, |m|
  {
    if m != [] {
      SortCanon(m[1..]);
      InsertCanon(m[0], SortPairs(m[1..]));
    }
  }

  lemma {:induction false} InsertCanon(e: (Value, Value), s: seq<(Value, Value)>)
    ensures CanonPairs(InsertPair(e, s)) == InsertLex(CanonPair(e), CanonPairs(s))
    decreases SizePair(e) + SizePairs(s), 0, |s|
  {
    CanonPairsLength(s);
    if s == [] {
    } else {
      CmpCanon(e.0, s[0].0);
      if Cmp(e.0, s[0].0) == Greater {
        InsertCanon(e, s[1..]);
      }
    }
  }

  // ----- so does the hash -----

  lemma {:induction false} FeedCanon(env: Env, v: Value)
    ensures Feed(env, Canon(v)) == Feed(env, v)
    decreases v
  {
    match v {
      case List(items) => FeedAllCanon(env, items);
      case Map(_, entries) => SumCanon(env, true, entries);
      case Set(_, entries) => SumCanon(env, false, entries);
      case Tuple(a, b) => FeedCanon(env, a); FeedCanon(env, b);
      case Optional(Some(x)) => FeedCanon(env, x);
      case Outcome(_, x) => FeedCanon(env, x);
      case _ =>
    }
  }

  lemma {:induction false} FeedAllCanon(env: Env, items: seq<Value>)
    ensures |CanonAll(items)| == |items| && FeedAll(env, CanonAll(items)) == FeedAll(env, items)
    decreases items
  {
    if items != [] {
      FeedCanon(env, items[0]);
      FeedAllCanon(env, items[1..]);
    }
  }

  lemma {:induction false} SumCanon(env: Env, valued: bool, entries: seq<(Value, Value)>)
    ensures |SortLex(CanonPairs(entries))| == |entries|
    ensures SumPairs(env, valued, SortLex(CanonPairs(entries))) == SumPairs(env, valued, entries)
    decreases entries
  {
    if entries != [] {
      EntryHashCanon(env, valued, entries[0]);
      SumCanon(env, valued, entries[1..]);
      InsertSum(env, valued, CanonPair(entries[0]), SortLex(CanonPairs(entries[1..])));
    }
  }

  lemma {:induction false} EntryHashCanon(env: Env, valued: bool, e: (Value, Value))
    ensures EntryHash(env, valued, CanonPair(e)) == EntryHash(env, valued, e)
    decreases e
  {
    match e case (k, v) => FeedCanon(env, k); FeedCanon(env, v);
  }

  lemma {:induction false} InsertSum(env: Env, valued: bool, e: (Value, Value), s: seq<(Value, Value)>)
    ensures |InsertLex(e, s)| == |s| + 1
    ensures SumPairs(env, valued, InsertLex(e, s)) == EntryHash(env, valued, e) + SumPairs(env, valued, s)
  {
    if s != [] && Lex(e.0, s[0].0) == Greater {
      InsertSum(env, valued, e, s[1..]);
    }
  }

  // ----- and, on well-formed values, so does equality -----

  lemma {:induction false} EqCanon(env: Env, a: Value, b: Value)
    requires WellFormed(env, a) && WellFormed(env, b)
    ensures Eq(env, a, b) <==> Canon(a) == Canon(b)
    decreases Size(a) + Size(b), 0, 0
  {
    CanonVariant(a);
    CanonVariant(b);
    if VariantOrder(a) == VariantOrder(b) {
      match a {
        case List(x) => EqAllCanon(env, x, b.items);
        case Map(_, x) => EqPairsCanon(env, x, b.seed, b.entries);
        case Set(_, x) => EqPairsCanon(env, x, b.seed, b.entries);
        case Tuple(x1, x2) => EqCanon(env, x1, b.first); EqCanon(env, x2, b.second);
        case Optional(None) =>
        case Optional(Some(x)) => if b.some.Some? { EqCanon(env, x, b.some.value); }
        case Outcome(_, x) => EqCanon(env, x, b.payload);
        case _ =>
      }
    }
  }

  lemma {:induction false} EqAllCanon(env: Env, s: seq<Value>, t: seq<Value>)
    requires AllWellFormed(env, s) && AllWellFormed(env, t)
    ensures (|s| == |t| && EqAll(env, s, t)) <==> CanonAll(s) == CanonAll(t)
    decreases SizeAll(s) + SizeAll(t), 1, |s|
  {
    CanonAllLength(s);
    CanonAllLength(t);
    if s != [] && t != [] {
      EqCanon(env, s[0], t[0]);
      EqAllCanon(env, s[1..], t[1..]);
      assert CanonAll(s)[1..] == CanonAll(s[1..]) && CanonAll(t)[1..] == CanonAll(t[1..]);
      assert CanonAll(s)[0] == Canon(s[0]) && CanonAll(t)[0] == Canon(t[0]);
      assert CanonAll(s) == [CanonAll(s)[0]] + CanonAll(s)[1..];
      assert CanonAll(t) == [CanonAll(t)[0]] + CanonAll(t)[1..];
    }
  }

  lemma {:induction false} EqPairsCanon(env: Env, x: seq<(Value, Value)>, seed: nat, y: seq<(Value, Value)>)
    requires PairsWellFormed(env, x) && DistinctEntries(env, x)
    requires PairsWellFormed(env, y) && DistinctEntries(env, y)
    ensures (|x| == |y| && EqInto(env, x, seed, y)) <==> SortLex(CanonPairs(x)) == SortLex(CanonPairs(y))
    decreases SizePairs(x) + SizePairs(y), 2, 0
  {
    CanonApart(env, x);
    CanonApart(env, y);
    EqIntoCanon(env, x, seed, y);
    SortEqual(CanonPairs(x), CanonPairs(y));
    CanonPairsLength(x);
    CanonPairsLength(y);
    forall i | 0 <= i < |x| ensures CanonPairs(x)[i] == CanonPair(x[i]) {
      CanonPairsAt(x, i);
    }
  }

  lemma {:induction false} SizePairsTwo(m: seq<(Value, Value)>, i: nat, j: nat)
    requires i < j < |m|
    ensures SizePair(m[i]) + SizePair(m[j]) <= SizePairs(m)
  {
    if i == 0 {
      SizePairsAt(m[1..], j - 1);
    } else {
      SizePairsTwo(m[1..], i - 1, j - 1);
    }
  }

  lemma {:induction false} CanonApart(env: Env, m: seq<(Value, Value)>)
    requires PairsWellFormed(env, m) && DistinctEntries(env, m)
    ensures KeysApart(CanonPairs(m))
    decreases SizePairs(m), 1, 0
  {
    CanonPairsLength(m);
    forall i, j | 0 <= i < j < |m| ensures CanonPairs(m)[i].0 != CanonPairs(m)[j].0 {
      CanonPairsAt(m, i);
      CanonPairsAt(m, j);
      PairsWellFormedAt(env, m, i);
      PairsWellFormedAt(env, m, j);
      SizePairsTwo(m, i, j);
      EqCanon(env, m[i].0, m[j].0);
    }
  }

  lemma {:induction false} FindCanon(env: Env, seed: nat, y: seq<(Value, Value)>, k: Value)
    requires PairsWellFormed(env, y) && WellFormed(env, k)
    ensures var r := Find(env, seed, y, k);
            && (r < |y| ==> Canon(y[r].0) == Canon(k))
            && (forall i :: 0 <= i < r ==> Canon(y[i].0) != Canon(k))
    decreases SizePairs(y) + Size(k), 0, |y|
  {
    if y != [] {
      assert PairWellFormed(env, y[0]);
      EqCanon(env, y[0].0, k);
      FeedCanon(env, y[0].0);
      FeedCanon(env, k);
      FindCanon(env, seed, y[1..], k);
    }
  }

  lemma {:induction false} EqIntoCanon(env: Env, x: seq<(Value, Value)>, seed: nat, y: seq<(Value, Value)>)
    requires PairsWellFormed(env, x) && PairsWellFormed(env, y) && KeysApart(CanonPairs(y))
    ensures EqInto(env, x, seed, y) <==> forall i :: 0 <= i < |x| ==> CanonPair(x[i]) in CanonPairs(y)
    decreases SizePairs(x) + SizePairs(y), 1, |x|
  {
    if x != [] {
      assert PairWellFormed(env, x[0]);
      FoundCanon(env, x[0], seed, y);
      EqIntoCanon(env, x[1..], seed, y);
      assert forall i :: 1 <= i < |x| ==> x[i] == x[1..][i - 1];
    }
  }

  lemma {:induction false} FoundCanon(env: Env, e: (Value, Value), seed: nat, y: seq<(Value, Value)>)
    requires PairWellFormed(env, e) && PairsWellFormed(env, y) && KeysApart(CanonPairs(y))
    ensures var r := Find(env, seed, y, e.0);
            (r < |y| && Eq(env, y[r].1, e.1)) <==> CanonPair(e) in CanonPairs(y)
    decreases SizePair(e) + SizePairs(y), 0, 0
  {
    var r := Find(env, seed, y, e.0);
    FindCanon(env, seed, y, e.0);
    CanonPairsLength(y);
    forall i | 0 <= i < |y| ensures CanonPairs(y)[i] == CanonPair(y[i]) {
      CanonPairsAt(y, i);
    }
    if r < |y| {
      PairsWellFormedAt(env, y, r);
      SizePairsAt(y, r);
      EqCanon(env, y[r].1, e.1);
    }
  }

  // ----- the contract -----

  /** Equality is an equivalence on well-formed values. */
  lemma EqualityIsEquivalence(env: Env, a: Value, b: Value, c: Value)
    requires WellFormed(env, a) && WellFormed(env, b) && WellFormed(env, c)
    ensures Eq(env, a, a)
    ensures Eq(env, a, b) == Eq(env, b, a)
    ensures Eq(env, a, b) && Eq(env, b, c) ==> Eq(env, a, c)
  {
    EqCanon(env, a, a);
    EqCanon(env, a, b);
    EqCanon(env, b, a);
    EqCanon(env, b, c);
    EqCanon(env, a, c);
  }

  /** The order is total on all values, and ties exactly the equal ones. */
  lemma OrderIsTotal(env: Env, a: Value, b: Value, c: Value)
    ensures Cmp(b, a) == Cmp(a, b).Flip()
    ensures Cmp(a, b) != Greater && Cmp(b, c) != Greater ==> Cmp(a, c) == Cmp(a, b).Then(Cmp(b, c))
    ensures WellFormed(env, a) && WellFormed(env, b) ==> (Cmp(a, b) == Equal <==> Eq(env, a, b))
  {
    CmpCanon(a, b);
    CmpCanon(b, a);
    CmpCanon(b, c);
    CmpCanon(a, c);
    LexFlip(Canon(a), Canon(b));
    LexChain(Canon(a), Canon(b), Canon(c));
    LexEqual(Canon(a), Canon(b));
    if WellFormed(env, a) && WellFormed(env, b) {
      EqCanon(env, a, b);
    }
  }

  /** Equal values feed any hasher the same words, so they land in the same bucket of any map. */
  lemma EqualValuesHashEqually(env: Env, a: Value, b: Value)
    requires WellFormed(env, a) && WellFormed(env, b) && Eq(env, a, b)
    ensures Feed(env, a) == Feed(env, b)
    ensures forall seed :: env.sip(seed, Feed(env, a)) == env.sip(seed, Feed(env, b))
  {
    EqCanon(env, a, b);
    FeedCanon(env, a);
    FeedCanon(env, b);
  }

  lemma SameCodes(s: string, t: string)
    requires Codes(s) + [0xff] == Codes(t) + [0xff]
    ensures s == t
  {
    assert |s| == |Codes(s) + [0xff]| - 1 == |Codes(t) + [0xff]| - 1 == |t|;
    assert Codes(s) == (Codes(s) + [0xff])[..|s|] == (Codes(t) + [0xff])[..|t|] == Codes(t);
    CodesEqual(s, t);
  }

  lemma SameTail(x: int, a: seq<int>, b: seq<int>)
    requires [x] + a == [x] + b
    ensures a == b
  {
    assert a == ([x] + a)[1..] && b == ([x] + b)[1..];
  }

  lemma SameBytes(x: seq<nat>, y: seq<nat>)
    requires [|x|] + x == [|y|] + y
    ensures x == y
  {
    assert x == ([|x|] + x)[1..] && y == ([|y|] + y)[1..];
  }

  /** The words fed tell apart all values without parts, so that only sums and collisions of the hasher can confuse keys. */
  lemma LeavesFeedApart(env: Env, a: Value, b: Value)
    requires IsLeaf(a) && IsLeaf(b) && Feed(env, a) == Feed(env, b)
    requires forall f, g :: env.bits(f) == env.bits(g) ==> f == g
    ensures a == b
  {
    assert Feed(env, a)[0] == VariantOrder(a) && Feed(env, b)[0] == VariantOrder(b);
    match a {
      case Str(s) => SameTail(4, Codes(s) + [0xff], Codes(b.s) + [0xff]); SameCodes(s, b.s);
      case Bytes(x) => SameTail(6, [|x|] + x, [|b.bytes|] + b.bytes); SameBytes(x, b.bytes);
      case Opaque(x) => SameTail(13, [|x|] + x, [|b.bytes|] + b.bytes); SameBytes(x, b.bytes);
      case Unit =>
      case _ => assert Feed(env, a)[|Feed(env, a)| - 1] == Feed(env, b)[|Feed(env, b)| - 1];
    }
  }

  // ----- values as keys of an ordered map -----

  /** How a map built with `seed` finds its keys, as a lawful keying on all values. */
  function KeyingOf(env: Env, seed: nat): Keying<Value> {
    Keying((a: Value, b: Value) => Canon(a) == Canon(b), (v: Value) => env.sip(seed, Feed(env, v)))
  }

  /** Values, maps and sets among them, satisfy what an ordered map asks of its keys. */
  lemma ValuesAreLawfulKeys(env: Env, seed: nat)
    ensures Lawful(KeyingOf(env, seed))
  {
    forall a: Value, b: Value | Canon(a) == Canon(b) ensures Feed(env, a) == Feed(env, b) {
      FeedCanon(env, a);
      FeedCanon(env, b);
    }
  }

  /** On well-formed values that keying is the runtime's own equality, and its lookup the runtime's own lookup. */
  lemma {:induction false} LookupAgrees(env: Env, seed: nat, y: seq<(Value, Value)>, k: Value)
    requires PairsWellFormed(env, y) && WellFormed(env, k)
    ensures forall i :: 0 <= i < |y| ==> Eq(env, y[i].0, k) == KeyingOf(env, seed).same(y[i].0, k)
    ensures Find(env, seed, y, k) == Position(KeyingOf(env, seed), y, k)
  {
    forall i | 0 <= i < |y| ensures Eq(env, y[i].0, k) == KeyingOf(env, seed).same(y[i].0, k) {
      PairsWellFormedAt(env, y, i);
      EqCanon(env, y[i].0, k);
    }
    FindCanon(env, seed, y, k);
  }
}
