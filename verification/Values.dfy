/**
 The runtime's values (src/lib.rs). A map or set is the sequence of pairs its
 slab stands for, together with the seed of the hasher it was built with; a set
 is a map whose values are all `Unit`. A JSON number kept as it was spelled is an
 object without callbacks, so it is known by its address. Other objects and boxed
 enums, which compare through callbacks, are not values of this model.
 */
module Values {
  import opened Wrappers

  /** A float up to the equality the runtime gives it: one zero, one NaN above every number. */
  datatype FloatValue = NegativeInfinity | Finite(number: real) | PositiveInfinity | NotANumber

  datatype Value =
    | Unit
    | Bool(b: bool)
    | Int(i: int)
    | Float(f: FloatValue)
    | Str(s: string)
    | List(items: seq<Value>)
    | Bytes(bytes: seq<nat>)
    | Map(seed: nat, entries: seq<(Value, Value)>)
    | Set(seed: nat, entries: seq<(Value, Value)>)
    | Tuple(first: Value, second: Value)
    | Optional(some: Option<Value>)
    | Outcome(success: bool, payload: Value)
    | Spelled(address: nat)
    | Opaque(bytes: seq<nat>)

  /** The position of each variant in the cross-variant order. */
  function VariantOrder(v: Value): nat {
    match v
    case Unit => 0
    case Bool(_) => 1
    case Int(_) => 2
    case Float(_) => 3
    case Str(_) => 4
    case List(_) => 5
    case Bytes(_) => 6
    case Map(_, _) => 7
    case Set(_, _) => 8
    case Tuple(_, _) => 9
    case Optional(_) => 10
    case Outcome(_, _) => 11
    case Spelled(_) => 12
    case Opaque(_) => 13
  }

  // ----- a measure for recursion that follows sorted copies of a value's parts -----

  function Size(v: Value): (n: nat)
    ensures n > 0
  {
    1 + match v
        case List(items) => SizeAll(items)
        case Map(_, entries) => SizePairs(entries)
        case Set(_, entries) => SizePairs(entries)
        case Tuple(a, b) => Size(a) + Size(b)
        case Optional(Some(x)) => Size(x)
        case Outcome(_, x) => Size(x)
        case _ => 0
  }

  function SizeAll(items: seq<Value>): nat {
    if items == [] then 0 else Size(items[0]) + SizeAll(items[1..])
  }

  function SizePairs(entries: seq<(Value, Value)>): nat {
    if entries == [] then 0 else SizePair(entries[0]) + SizePairs(entries[1..])
  }

  function SizePair(entry: (Value, Value)): (n: nat)
    ensures n == Size(entry.0) + Size(entry.1)
  {
    match entry case (k, v) => Size(k) + Size(v)
  }

  lemma {:induction false} SizeAllAt(items: seq<Value>, i: nat)
    requires i < |items|
    ensures Size(items[i]) <= SizeAll(items)
  {
    if i > 0 {
      SizeAllAt(items[1..], i - 1);
    }
  }

  lemma {:induction false} SizePairsAt(entries: seq<(Value, Value)>, i: nat)
    requires i < |entries|
    ensures SizePair(entries[i]) <= SizePairs(entries)
  {
    if i > 0 {
      SizePairsAt(entries[1..], i - 1);
    }
  }
}
