/** Sorting pairs by key, and the canonical form of a value: every map and set sorted, every seed erased. */
module Canonical {
  import opened Wrappers
  import opened Values
  import opened Orderings

  function InsertLex(e: (Value, Value), s: seq<(Value, Value)>): seq<(Value, Value)> {
    if s == [] || Lex(e.0, s[0].0) != Greater then [e] + s else [s[0]] + InsertLex(e, s[1..])
  }

  function SortLex(m: seq<(Value, Value)>): seq<(Value, Value)> {
    if m == [] then [] else InsertLex(m[0], SortLex(m[1..]))
  }

  function Canon(v: Value): Value {
    match v
    case List(items) => List(CanonAll(items))
    case Map(_, entries) => Map(0, SortLex(CanonPairs(entries)))
    case Set(_, entries) => Set(0, SortLex(CanonPairs(entries)))
    case Tuple(a, b) => Tuple(Canon(a), Canon(b))
    case Optional(Some(x)) => Optional(Some(Canon(x)))
    case Outcome(p, x) => Outcome(p, Canon(x))
    case _ => v
  }

  function CanonAll(items: seq<Value>): seq<Value> {
    if items == [] then [] else [Canon(items[0])] + CanonAll(items[1..])
  }

  function CanonPairs(entries: seq<(Value, Value)>): seq<(Value, Value)> {
    if entries == [] then [] else [CanonPair(entries[0])] + CanonPairs(entries[1..])
  }

  function CanonPair(e: (Value, Value)): (Value, Value) {
    match e case (k, v) => (Canon(k), Canon(v))
  }

  lemma CanonVariant(v: Value)
    ensures VariantOrder(Canon(v)) == VariantOrder(v)
  {
  }

  lemma {:induction false} CanonPairsAt(m: seq<(Value, Value)>, i: nat)
    requires i < |m|
    ensures |CanonPairs(m)| == |m| && CanonPairs(m)[i] == CanonPair(m[i])
  {
    if |m| > 1 {
      CanonPairsAt(m[1..], if i == 0 then 0 else i - 1);
    }
  }

  // ----- sorting -----

  ghost predicate KeysApart(s: seq<(Value, Value)>) {
    forall i, j :: 0 <= i < j < |s| ==> s[i].0 != s[j].0
  }

  ghost predicate Ascending(s: seq<(Value, Value)>) {
    forall i, j :: 0 <= i < j < |s| ==> Lex(s[i].0, s[j].0) == Less
  }

  lemma {:induction false} InsertKeeps(e: (Value, Value), s: seq<(Value, Value)>)
    ensures multiset(InsertLex(e, s)) == multiset(s) + multiset{e}
  {
    if s != [] && Lex(e.0, s[0].0) == Greater {
      InsertKeeps(e, s[1..]);
      assert s == [s[0]] + s[1..];
    }
  }

  lemma {:induction false} SortKeeps(m: seq<(Value, Value)>)
    ensures multiset(SortLex(m)) == multiset(m)
  {
    if m != [] {
      var rest := SortLex(m[1..]);
      SortKeeps(m[1..]);
      InsertKeeps(m[0], rest);
      assert SortLex(m) == InsertLex(m[0], rest);
      assert m == [m[0]] + m[1..];
    }
  }

  lemma {:induction false} InsertAscending(e: (Value, Value), s: seq<(Value, Value)>)
    requires Ascending(s) && forall x :: x in s ==> x.0 != e.0
    ensures Ascending(InsertLex(e, s))
  {
    if s == [] {
    } else if Lex(e.0, s[0].0) != Greater {
      LexEqual(e.0, s[0].0);
      forall j | 0 <= j < |s| ensures Lex(e.0, s[j].0) == Less {
        LexChain(e.0, s[0].0, s[j].0);
      }
    } else {
      InsertAscending(e, s[1..]);
      InsertKeeps(e, s[1..]);
      LexFlip(e.0, s[0].0);
      var r := InsertLex(e, s[1..]);
      forall j | 0 <= j < |r| ensures Lex(s[0].0, r[j].0) == Less {
        assert r[j] in multiset(r);
      }
    }
  }

  lemma {:induction false} SortAscending(m: seq<(Value, Value)>)
    requires KeysApart(m)
    ensures Ascending(SortLex(m))
  {
    if m != [] {
      SortAscending(m[1..]);
      SortKeeps(m[1..]);
      forall x | x in SortLex(m[1..]) ensures x.0 != m[0].0 {
        assert x in multiset(SortLex(m[1..]));
      }
      InsertAscending(m[0], SortLex(m[1..]));
    }
  }

  lemma SmallerFirst(s: seq<(Value, Value)>, t: seq<(Value, Value)>)
    requires Ascending(s) && Ascending(t) && multiset(s) == multiset(t) && s != []
    ensures t != [] && s[0] == t[0]
  {
    assert s[0] in multiset(t);
    assert t[0] in multiset(s);
    var i :| 0 <= i < |t| && t[i] == s[0];
    var j :| 0 <= j < |s| && s[j] == t[0];
    LexFlip(s[0].0, t[0].0);
  }

  lemma {:induction false} AscendingUnique(s: seq<(Value, Value)>, t: seq<(Value, Value)>)
    requires Ascending(s) && Ascending(t) && multiset(s) == multiset(t)
    ensures s == t
  {
    if s != [] {
      SmallerFirst(s, t);
      assert s == [s[0]] + s[1..] && t == [t[0]] + t[1..];
      assert multiset(s[1..]) == multiset(s) - multiset{s[0]};
      assert multiset(t[1..]) == multiset(t) - multiset{t[0]};
      AscendingUnique(s[1..], t[1..]);
    }
  }

  lemma {:induction false} SameElements(p: seq<(Value, Value)>, q: seq<(Value, Value)>)
    requires KeysApart(p) && |p| == |q|
    requires forall i :: 0 <= i < |p| ==> p[i] in q
    ensures multiset(p) == multiset(q)
  {
    SubMultiset(p, q);
    var rest := multiset(q) - multiset(p);
    assert |rest| == 0;
    assert multiset(q) == multiset(p) + rest;
  }

  lemma {:induction false} SubMultiset(p: seq<(Value, Value)>, q: seq<(Value, Value)>)
    requires KeysApart(p)
    requires forall i :: 0 <= i < |p| ==> p[i] in q
    ensures multiset(p) <= multiset(q)
  {
    forall x | x in multiset(p) ensures multiset(p)[x] <= multiset(q)[x] {
      AtMostOnce(p, x);
      assert x in q;
    }
  }

  lemma {:induction false} AtMostOnce(p: seq<(Value, Value)>, x: (Value, Value))
    requires KeysApart(p)
    ensures multiset(p)[x] <= 1
  {
    if p != [] {
      AtMostOnce(p[1..], x);
      assert p == [p[0]] + p[1..];
      assert p[0] == x ==> x !in p[1..];
    }
  }

  /** Sorting forgets exactly the order in which distinct keys were stored. */
  lemma SortEqual(p: seq<(Value, Value)>, q: seq<(Value, Value)>)
    requires KeysApart(p) && KeysApart(q)
    ensures SortLex(p) == SortLex(q) <==> |p| == |q| && forall i :: 0 <= i < |p| ==> p[i] in q
  {
    SortKeeps(p);
    SortKeeps(q);
    if SortLex(p) == SortLex(q) {
      assert |multiset(p)| == |p| && |multiset(q)| == |q|;
      forall i | 0 <= i < |p| ensures p[i] in q {
        assert p[i] in multiset(p);
      }
    }
    if |p| == |q| && forall i :: 0 <= i < |p| ==> p[i] in q {
      SameElements(p, q);
      SortAscending(p);
      SortAscending(q);
      AscendingUnique(SortLex(p), SortLex(q));
    }
  }
}
