/** Three-way comparison, and a plain structural order on values. */
module Orderings {
  import opened Wrappers
  import opened Values

  datatype Ordering = Less | Equal | Greater {
    function Then(next: Ordering): Ordering { if Equal? then next else this }
    function Flip(): Ordering {
      match this case Less => Greater case Equal => Equal case Greater => Less
    }
  }

  function CompareInt(x: int, y: int): Ordering {
    if x < y then Less else if x == y then Equal else Greater
  }

  function CompareBool(x: bool, y: bool): Ordering {
    CompareInt(if x then 1 else 0, if y then 1 else 0)
  }

  function FloatRank(f: FloatValue): nat {
    match f case NegativeInfinity => 0 case Finite(_) => 1 case PositiveInfinity => 2 case NotANumber => 3
  }

  function CompareFloat(x: FloatValue, y: FloatValue): Ordering {
    if x.Finite? && y.Finite?
    then if x.number < y.number then Less else if x.number == y.number then Equal else Greater
    else CompareInt(FloatRank(x), FloatRank(y))
  }

  /** Lexicographic, a proper prefix first. */
  function CompareInts(s: seq<int>, t: seq<int>): Ordering {
    if s == [] || t == [] then CompareInt(|s|, |t|)
    else CompareInt(s[0], t[0]).Then(CompareInts(s[1..], t[1..]))
  }

  function Codes(s: string): (codes: seq<int>)
    ensures |codes| == |s| && forall i :: 0 <= i < |s| ==> codes[i] == s[i] as int
  {
    seq(|s|, i requires 0 <= i < |s| => s[i] as int)
  }

  /** The order of two values of one variant that have no parts. */
  function CompareLeaf(a: Value, b: Value): Ordering
    requires VariantOrder(a) == VariantOrder(b)
  {
    match a
    case Bool(x) => CompareBool(x, b.b)
    case Int(x) => CompareInt(x, b.i)
    case Float(x) => CompareFloat(x, b.f)
    case Str(x) => CompareInts(Codes(x), Codes(b.s))
    case Bytes(x) => CompareInts(x, b.bytes)
    case Spelled(x) => CompareInt(x, b.address)
    case Opaque(x) => CompareInts(x, b.bytes)
    case _ => Equal
  }

  predicate IsLeaf(v: Value) {
    v.Unit? || v.Bool? || v.Int? || v.Float? || v.Str? || v.Bytes? || v.Spelled? || v.Opaque?
  }

  // ----- the structural order: entries compared in the order they are stored -----

  function Lex(a: Value, b: Value): Ordering {
    if VariantOrder(a) != VariantOrder(b) then CompareInt(VariantOrder(a), VariantOrder(b))
    else match a
      case List(x) => LexAll(x, b.items)
      case Map(p, x) => CompareInt(p, b.seed).Then(LexPairs(x, b.entries))
      case Set(p, x) => CompareInt(p, b.seed).Then(LexPairs(x, b.entries))
      case Tuple(x1, x2) => Lex(x1, b.first).Then(Lex(x2, b.second))
      case Optional(None) => CompareBool(false, b.some.Some?)
      case Optional(Some(x)) => if b.some.Some? then Lex(x, b.some.value) else Greater
      case Outcome(p, x) => CompareBool(!p, !b.success).Then(Lex(x, b.payload))
      case _ => CompareLeaf(a, b)
  }

  function LexAll(s: seq<Value>, t: seq<Value>): Ordering {
    if s == [] || t == [] then CompareInt(|s|, |t|)
    else Lex(s[0], t[0]).Then(LexAll(s[1..], t[1..]))
  }

  function LexPairs(s: seq<(Value, Value)>, t: seq<(Value, Value)>): Ordering {
    if s == [] || t == [] then CompareInt(|s|, |t|)
    else LexPair(s[0], t[0]).Then(LexPairs(s[1..], t[1..]))
  }

  function LexPair(e: (Value, Value), f: (Value, Value)): Ordering {
    match e case (k, v) => Lex(k, f.0).Then(Lex(v, f.1))
  }

  // ----- it is a total order -----

  /** Transitivity in the form that composes: two steps up are one step up, strict if either was. */
  predicate Chains(x: Ordering, y: Ordering, z: Ordering) {
    x != Greater && y != Greater ==> z == x.Then(y)
  }

  lemma {:induction false} IntsEqual(s: seq<int>, t: seq<int>)
    ensures CompareInts(s, t) == Equal <==> s == t
  {
    if s != [] && t != [] {
      IntsEqual(s[1..], t[1..]);
      assert s == [s[0]] + s[1..] && t == [t[0]] + t[1..];
    }
  }

  lemma {:induction false} IntsFlip(s: seq<int>, t: seq<int>)
    ensures CompareInts(t, s) == CompareInts(s, t).Flip()
  {
    if s != [] && t != [] {
      IntsFlip(s[1..], t[1..]);
    }
  }

  lemma {:induction false} IntsChain(s: seq<int>, t: seq<int>, u: seq<int>)
    ensures Chains(CompareInts(s, t), CompareInts(t, u), CompareInts(s, u))
  {
    if s != [] && t != [] && u != [] {
      IntsChain(s[1..], t[1..], u[1..]);
    }
  }

  lemma CodesEqual(s: string, t: string)
    ensures Codes(s) == Codes(t) <==> s == t
  {
    if Codes(s) == Codes(t) {
      assert forall i :: 0 <= i < |s| ==> Codes(s)[i] == Codes(t)[i];
    }
  }

  lemma LeafEqual(a: Value, b: Value)
    requires IsLeaf(a) && VariantOrder(a) == VariantOrder(b)
    ensures CompareLeaf(a, b) == Equal <==> a == b
  {
    match a {
      case Str(x) => CodesEqual(x, b.s); IntsEqual(Codes(x), Codes(b.s));
      case Bytes(x) => IntsEqual(x, b.bytes);
      case Opaque(x) => IntsEqual(x, b.bytes);
      case _ =>
    }
  }

  lemma LeafFlip(a: Value, b: Value)
    requires VariantOrder(a) == VariantOrder(b)
    ensures CompareLeaf(b, a) == CompareLeaf(a, b).Flip()
  {
    match a {
      case Str(x) => IntsFlip(Codes(x), Codes(b.s));
      case Bytes(x) => IntsFlip(x, b.bytes);
      case Opaque(x) => IntsFlip(x, b.bytes);
      case _ =>
    }
  }

  lemma LeafChain(a: Value, b: Value, c: Value)
    requires VariantOrder(a) == VariantOrder(b) == VariantOrder(c)
    ensures Chains(CompareLeaf(a, b), CompareLeaf(b, c), CompareLeaf(a, c))
  {
    match a {
      case Str(x) => IntsChain(Codes(x), Codes(b.s), Codes(c.s));
      case Bytes(x) => IntsChain(x, b.bytes, c.bytes);
      case Opaque(x) => IntsChain(x, b.bytes, c.bytes);
      case _ =>
    }
  }

  lemma {:induction false} LexEqual(a: Value, b: Value)
    ensures Lex(a, b) == Equal <==> a == b
  {
    if VariantOrder(a) == VariantOrder(b) {
      match a {
        case List(x) => LexAllEqual(x, b.items);
        case Map(_, x) => LexPairsEqual(x, b.entries);
        case Set(_, x) => LexPairsEqual(x, b.entries);
        case Tuple(x1, x2) => LexEqual(x1, b.first); LexEqual(x2, b.second);
        case Optional(None) =>
        case Optional(Some(x)) => if b.some.Some? { LexEqual(x, b.some.value); }
        case Outcome(_, x) => LexEqual(x, b.payload);
        case _ => LeafEqual(a, b);
      }
    }
  }

  lemma {:induction false} LexAllEqual(s: seq<Value>, t: seq<Value>)
    ensures LexAll(s, t) == Equal <==> s == t
  {
    if s != [] && t != [] {
      LexEqual(s[0], t[0]);
      LexAllEqual(s[1..], t[1..]);
      assert s == [s[0]] + s[1..] && t == [t[0]] + t[1..];
    }
  }

  lemma {:induction false} LexPairsEqual(s: seq<(Value, Value)>, t: seq<(Value, Value)>)
    ensures LexPairs(s, t) == Equal <==> s == t
  {
    if s != [] && t != [] {
      LexPairEqual(s[0], t[0]);
      LexPairsEqual(s[1..], t[1..]);
      assert s == [s[0]] + s[1..] && t == [t[0]] + t[1..];
    }
  }

  lemma {:induction false} LexPairEqual(e: (Value, Value), f: (Value, Value))
    ensures LexPair(e, f) == Equal <==> e == f
  {
    match e case (k, v) => LexEqual(k, f.0); LexEqual(v, f.1);
  }

  lemma {:induction false} LexFlip(a: Value, b: Value)
    ensures Lex(b, a) == Lex(a, b).Flip()
  {
    if VariantOrder(a) == VariantOrder(b) {
      match a {
        case List(x) => LexAllFlip(x, b.items);
        case Map(_, x) => LexPairsFlip(x, b.entries);
        case Set(_, x) => LexPairsFlip(x, b.entries);
        case Tuple(x1, x2) => LexFlip(x1, b.first); LexFlip(x2, b.second);
        case Optional(None) =>
        case Optional(Some(x)) => if b.some.Some? { LexFlip(x, b.some.value); }
        case Outcome(_, x) => LexFlip(x, b.payload);
        case _ => LeafFlip(a, b);
      }
    }
  }

  lemma {:induction false} LexAllFlip(s: seq<Value>, t: seq<Value>)
    ensures LexAll(t, s) == LexAll(s, t).Flip()
  {
    if s != [] && t != [] {
      LexFlip(s[0], t[0]);
      LexAllFlip(s[1..], t[1..]);
    }
  }

  lemma {:induction false} LexPairsFlip(s: seq<(Value, Value)>, t: seq<(Value, Value)>)
    ensures LexPairs(t, s) == LexPairs(s, t).Flip()
  {
    if s != [] && t != [] {
      LexPairFlip(s[0], t[0]);
      LexPairsFlip(s[1..], t[1..]);
    }
  }

  lemma {:induction false} LexPairFlip(e: (Value, Value), f: (Value, Value))
    ensures LexPair(f, e) == LexPair(e, f).Flip()
  {
    match e case (k, v) => LexFlip(k, f.0); LexFlip(v, f.1);
  }

  lemma {:induction false} LexChain(a: Value, b: Value, c: Value)
    ensures Chains(Lex(a, b), Lex(b, c), Lex(a, c))
  {
    if VariantOrder(a) == VariantOrder(b) == VariantOrder(c) {
      match a {
        case List(x) => LexAllChain(x, b.items, c.items);
        case Map(_, x) => LexPairsChain(x, b.entries, c.entries);
        case Set(_, x) => LexPairsChain(x, b.entries, c.entries);
        case Tuple(x1, x2) => LexChain(x1, b.first, c.first); LexChain(x2, b.second, c.second);
        case Optional(None) =>
        case Optional(Some(x)) => if b.some.Some? && c.some.Some? { LexChain(x, b.some.value, c.some.value); }
        case Outcome(_, x) => LexChain(x, b.payload, c.payload);
        case _ => LeafChain(a, b, c);
      }
    }
  }

  lemma {:induction false} LexAllChain(s: seq<Value>, t: seq<Value>, u: seq<Value>)
    ensures Chains(LexAll(s, t), LexAll(t, u), LexAll(s, u))
  {
    if s != [] && t != [] && u != [] {
      LexChain(s[0], t[0], u[0]);
      LexAllChain(s[1..], t[1..], u[1..]);
    }
  }

  lemma {:induction false} LexPairsChain(s: seq<(Value, Value)>, t: seq<(Value, Value)>, u: seq<(Value, Value)>)
    ensures Chains(LexPairs(s, t), LexPairs(t, u), LexPairs(s, u))
  {
    if s != [] && t != [] && u != [] {
      LexPairChain(s[0], t[0], u[0]);
      LexPairsChain(s[1..], t[1..], u[1..]);
    }
  }

  lemma {:induction false} LexPairChain(e: (Value, Value), f: (Value, Value), g: (Value, Value))
    ensures Chains(LexPair(e, f), LexPair(f, g), LexPair(e, g))
  {
    match e case (k, v) => LexChain(k, f.0, g.0); LexChain(v, f.1, g.1);
  }
}
