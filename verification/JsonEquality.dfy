/**
 Equality of JSON values as section 4.6 of RFC 6902 defines it for `test`, and
 the runtime's equality of values against it.
 */
module JsonEquality {
  import opened Wrappers
  import opened Pairs
  import opened Values
  import opened JsonPointer
  import opened JsonPatch
  import Canonical
  import ValueContract

  /** The number a value denotes; infinities and NaN denote none. */
  function Number(env: Env, v: Value): Option<real> {
    match v
    case Int(i) => Some(i as real)
    case Float(Finite(r)) => Some(r)
    case Spelled(address) => Some(env.number(address))
    case _ => None
  }

  /**
   Numbers are equal when they are numerically equal, arrays element by element,
   and objects when they have as many members and each member of the one has a
   member of the other with its name and an equal value.
   */
  predicate Same(env: Env, a: Value, b: Value)
    decreases Size(a) + Size(b), 0, 0
  {
    match (a, b)
    case (Unit, Unit) => true
    case (Bool(x), Bool(y)) => x == y
    case (Str(x), Str(y)) => x == y
    case (List(x), List(y)) => |x| == |y| && SameAll(env, x, y)
    case (Map(_, x), Map(_, y)) => |x| == |y| && SameInto(env, x, y)
    case _ => Number(env, a).Some? && Number(env, a) == Number(env, b)
  }

  predicate SameAll(env: Env, x: seq<Value>, y: seq<Value>)
    requires |x| == |y|
    decreases SizeAll(x) + SizeAll(y), 1, |x|
  {
    x == [] || (Same(env, x[0], y[0]) && SameAll(env, x[1..], y[1..]))
  }

  predicate SameInto(env: Env, x: Entries, y: Entries)
    decreases SizePairs(x) + SizePairs(y), 1, |x|
  {
    x == [] ||
    (var r := Position(BY_NAME, y, x[0].0);
     r < |y| && (SizePairsAt(y, r); Same(env, y[r].1, x[0].1)) && SameInto(env, x[1..], y))
  }

  /**
   Somewhere at matching places two numbers meet that are numerically equal and
   not the same value: an integer and a float, or a number kept as spelled and
   any other, also one spelled alike.
   */
  predicate Faces(env: Env, a: Value, b: Value)
    decreases Size(a) + Size(b), 0, 0
  {
    match (a, b)
    case (List(x), List(y)) => FacesAny(env, x, y)
    case (Map(_, x), Map(_, y)) => FacesInto(env, x, y)
    case _ => a != b && Number(env, a).Some? && Number(env, a) == Number(env, b)
  }

  predicate FacesAny(env: Env, x: seq<Value>, y: seq<Value>)
    decreases SizeAll(x) + SizeAll(y), 1, |x|
  {
    x != [] && y != [] && (Faces(env, x[0], y[0]) || FacesAny(env, x[1..], y[1..]))
  }

  predicate FacesInto(env: Env, x: Entries, y: Entries)
    decreases SizePairs(x) + SizePairs(y), 1, |x|
  {
    x != [] &&
    (var r := Position(BY_NAME, y, x[0].0);
     (r < |y| && (SizePairsAt(y, r); Faces(env, y[r].1, x[0].1))) || FacesInto(env, x[1..], y))
  }

  predicate StringKeys(m: Entries) { forall i :: 0 <= i < |m| ==> m[i].0.Str? }

  lemma {:induction false} RepresentableKeys(m: Entries)
    requires PairsRepresentable(m)
    ensures StringKeys(m) && forall i :: 0 <= i < |m| ==> Representable(m[i].1)
  {
    if m != [] {
      assert PairRepresentable(m[0]);
      RepresentableKeys(m[1..]);
      assert forall i :: 0 < i < |m| ==> m[i] == m[1..][i - 1];
    }
  }

  /** A hash lookup of a string, or among strings, finds by name. */
  lemma {:induction false} FindsByName(env: Env, seed: nat, y: Entries, k: Value)
    requires StringKeys(y) || k.Str?
    ensures ValueContract.Find(env, seed, y, k) == Position(BY_NAME, y, k)
    decreases y
  {
    if y != [] {
      assert ValueContract.Eq(env, y[0].0, k) <==> y[0].0 == k;
      FindsByName(env, seed, y[1..], k);
    }
  }

  /**
   When at least one side is a JSON value, the runtime's equality is the
   standard's without the cases where a number meets an equal one that is not the same value.
   */
  lemma {:induction false} EqIffSame(env: Env, a: Value, b: Value)
    requires Representable(a) || Representable(b)
    ensures ValueContract.Eq(env, a, b) <==> Same(env, a, b) && !Faces(env, a, b)
    decreases Size(a) + Size(b), 0, 0
  {
    match (a, b) {
      case (List(x), List(y)) =>
        if |x| == |y| {
          EqAllIffSame(env, x, y);
        }
      case (Map(_, x), Map(seed, y)) =>
        if |x| == |y| {
          EqIntoIffSame(env, x, seed, y);
        }
      case _ =>
    }
  }

  lemma {:induction false} EqAllIffSame(env: Env, x: seq<Value>, y: seq<Value>)
    requires |x| == |y| && (AllRepresentable(x) || AllRepresentable(y))
    ensures ValueContract.EqAll(env, x, y) <==> SameAll(env, x, y) && !FacesAny(env, x, y)
    decreases SizeAll(x) + SizeAll(y), 1, |x|
  {
    if x != [] {
      EqIffSame(env, x[0], y[0]);
      EqAllIffSame(env, x[1..], y[1..]);
    }
  }

  lemma {:induction false} EqIntoIffSame(env: Env, x: Entries, seed: nat, y: Entries)
    requires PairsRepresentable(x) || PairsRepresentable(y)
    ensures ValueContract.EqInto(env, x, seed, y) <==> SameInto(env, x, y) && !FacesInto(env, x, y)
    decreases SizePairs(x) + SizePairs(y), 1, |x|
  {
    if x != [] {
      if PairsRepresentable(x) {
        assert PairRepresentable(x[0]);
      }
      if PairsRepresentable(y) {
        RepresentableKeys(y);
      }
      FindsByName(env, seed, y, x[0].0);
      var r := Position(BY_NAME, y, x[0].0);
      if r < |y| {
        SizePairsAt(y, r);
        EqIffSame(env, y[r].1, x[0].1);
      }
      EqIntoIffSame(env, x[1..], seed, y);
    }
  }

  /** The two equalities disagree exactly on values that are equal but for a number facing an equal one of another kind. */
  lemma EqualitiesDiffer(env: Env, a: Value, b: Value)
    requires Representable(a) || Representable(b)
    ensures (ValueContract.Eq(env, a, b) <==> Same(env, a, b)) <==> !(Same(env, a, b) && Faces(env, a, b))
  {
    EqIffSame(env, a, b);
  }

  lemma {:induction false} ItemsWellFormedAt(env: Env, items: seq<Value>, i: nat)
    requires ValueContract.AllWellFormed(env, items) && i < |items|
    ensures ValueContract.WellFormed(env, items[i])
  {
    if i > 0 {
      ItemsWellFormedAt(env, items[1..], i - 1);
    }
  }

  /** Every value inside a well-formed document is well formed. */
  lemma {:induction false} PlacesWellFormed(env: Env, v: Value, p: Path)
    requires ValueContract.WellFormed(env, v) && GetAt(v, p).Some?
    ensures ValueContract.WellFormed(env, GetAt(v, p).value)
    decreases p
  {
    if p != [] {
      match v {
        case List(items) => ItemsWellFormedAt(env, items, p[0].at);
        case Map(_, entries) => ValueContract.PairsWellFormedAt(env, entries, Slot(entries, p[0].name));
      }
      PlacesWellFormed(env, Child(v, p[0]).value, p[1..]);
    }
  }

  /**
   A `test` leaves the document alone. It succeeds exactly when the place exists
   and holds the expected value up to the order of members, and for a JSON value
   exactly when the two are equal by the standard and no number faces another equal one.
   */
  lemma TestSucceedsExactlyWhen(env: Env, doc: Value, tokens: seq<string>, expected: Value)
    requires ValueContract.WellFormed(env, doc) && ValueContract.WellFormed(env, expected)
    ensures var r, found := TestTokens(env, doc, tokens, Ok(expected)), PointerGet(doc, tokens);
            && r.doc == doc
            && (r.result.Ok? <==> found.Ok? && Canonical.Canon(found.value) == Canonical.Canon(expected))
            && (Representable(expected) ==>
                (r.result.Ok? <==> found.Ok? && Same(env, found.value, expected) && !Faces(env, found.value, expected)))
  {
    GetResolves(doc, tokens);
    if PointerGet(doc, tokens).Ok? {
      var found := PointerGet(doc, tokens).value;
      PlacesWellFormed(env, doc, Resolve(doc, tokens, None).value);
      ValueContract.EqCanon(env, found, expected);
      if Representable(expected) {
        EqIffSame(env, found, expected);
      }
    }
  }
}
