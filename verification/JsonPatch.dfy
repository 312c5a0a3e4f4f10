/** JSON Patch (RFC 6902), src/json.rs: operations on a candidate copy, committed only when all of them succeed. */
module JsonPatch {
  import opened Wrappers
  import opened Pairs
  import opened Values
  import opened JsonPointer
  import opened JsonPointerText
  import opened JsonPointerLaws
  import ValueContract

  type Env = ValueContract.Env

  function Field(operation: Value, name: string): Result<Value> {
    match operation
    case Map(_, fields) => (match Lookup(BY_NAME, fields, Str(name)) case Some(v) => Ok(v) case None => Err)
    case _ => Err
  }

  function StringField(operation: Value, name: string): Result<string> {
    var v :- Field(operation, name);
    if v.Str? then Ok(v.s) else Err
  }

  function MoveTokens(doc: Value, from: seq<string>, tokens: seq<string>): Done<()> {
    if |from| < |tokens| && tokens[..|from|] == from then Done(doc, Err)
    else match PointerGet(doc, from)
      case Err => Done(doc, Err)
      case Ok(source) =>
        var removed := PointerRemove(doc, from);
        if removed.result.Err? then Done(removed.doc, Err) else PointerAdd(removed.doc, tokens, source)
  }

  function ReplaceTokens(doc: Value, tokens: seq<string>, value: Result<Value>): Done<()> {
    if PointerGet(doc, tokens).Err? || value.Err? then Done(doc, Err) else PointerSet(doc, tokens, value.value)
  }

  function CopyTokens(doc: Value, from: seq<string>, tokens: seq<string>): Done<()> {
    match PointerGet(doc, from)
    case Err => Done(doc, Err)
    case Ok(source) => PointerAdd(doc, tokens, source)
  }

  function TestTokens(env: Env, doc: Value, tokens: seq<string>, value: Result<Value>): Done<()> {
    match (PointerGet(doc, tokens), value)
    case (Ok(found), Ok(expected)) => Done(doc, if ValueContract.Eq(env, found, expected) then Ok(()) else Err)
    case _ => Done(doc, Err)
  }

  /** The tokens of a pointer field. */
  function PathField(operation: Value, name: string): Result<seq<string>> {
    var text :- StringField(operation, name);
    Decode(text)
  }

  function ApplyNamed(env: Env, doc: Value, op: string, tokens: seq<string>, value: Result<Value>, from: Result<seq<string>>): Done<()> {
    if op == "add" then (if value.Ok? then PointerAdd(doc, tokens, value.value) else Done(doc, Err))
    else if op == "remove" then
      var removed := PointerRemove(doc, tokens);
      Done(removed.doc, if removed.result.Ok? then Ok(()) else Err)
    else if op == "replace" then ReplaceTokens(doc, tokens, value)
    else if op == "copy" then (if from.Ok? then CopyTokens(doc, from.value, tokens) else Done(doc, Err))
    else if op == "move" then (if from.Ok? then MoveTokens(doc, from.value, tokens) else Done(doc, Err))
    else if op == "test" then TestTokens(env, doc, tokens, value)
    else Done(doc, Err)
  }

  /** One operation, applied in place. */
  function ApplyOperation(env: Env, doc: Value, operation: Value): Done<()> {
    match (StringField(operation, "op"), PathField(operation, "path"))
    case (Ok(op), Ok(tokens)) =>
      ApplyNamed(env, doc, op, tokens, Field(operation, "value"), PathField(operation, "from"))
    case _ => Done(doc, Err)
  }

  /** Whether a value converts to JSON: finite or spelled numbers, and only string keys. */
  predicate Representable(v: Value) {
    match v
    case Unit => true
    case Bool(_) => true
    case Int(_) => true
    case Float(f) => f.Finite?
    case Str(_) => true
    case Spelled(_) => true
    case List(items) => AllRepresentable(items)
    case Map(_, entries) => PairsRepresentable(entries)
    case _ => false
  }

  predicate AllRepresentable(items: seq<Value>) {
    items == [] || (Representable(items[0]) && AllRepresentable(items[1..]))
  }

  predicate PairsRepresentable(entries: seq<(Value, Value)>) {
    entries == [] || (PairRepresentable(entries[0]) && PairsRepresentable(entries[1..]))
  }

  predicate PairRepresentable(e: (Value, Value)) {
    match e case (k, v) => k.Str? && Representable(v)
  }

  /** The operations one after the other on a working copy; `None` as soon as one fails. */
  function RunAll(env: Env, doc: Value, operations: seq<Value>): Option<Value>
    decreases operations
  {
    if operations == [] then Some(doc)
    else
      var first := ApplyOperation(env, doc, operations[0]);
      if first.result.Err? then None else RunAll(env, first.doc, operations[1..])
  }

  function ApplyPatch(env: Env, doc: Value, patch: Value): Done<()> {
    if !patch.List? || !AllRepresentable(patch.items) then Done(doc, Err)
    else match RunAll(env, doc, patch.items)
      case None => Done(doc, Err)
      case Some(doc') => Done(doc', Ok(()))
  }

  /** A document that patches are applied to in place. */
  class Document {
    var root: Value

    constructor (root: Value)
      ensures this.root == root
    {
      this.root := root;
    }

    /** The target is replaced only after every operation succeeded on the candidate. */
    method Apply(env: Env, patch: Value) returns (ok: bool)
      modifies this
      ensures ApplyPatch(env, old(root), patch) == Done(root, if ok then Ok(()) else Err)
      ensures !ok ==> root == old(root)
    {
      if !patch.List? || !AllRepresentable(patch.items) {
        return false;
      }
      var candidate, operations := root, patch.items;
      assert operations[0..] == operations;
      for i := 0 to |operations|
        invariant RunAll(env, candidate, operations[i..]) == RunAll(env, root, operations)
        invariant root == old(root)
      {
        assert operations[i..][1..] == operations[i + 1..];
        var done := ApplyOperation(env, candidate, operations[i]);
        if done.result.Err? {
          return false;
        }
        candidate := done.doc;
      }
      root := candidate;
      return true;
    }
  }

  // ----- laws -----

  /** Success means every operation succeeded in turn; anything else leaves the target as it was. */
  lemma {:induction false} RunSplits(env: Env, doc: Value, a: seq<Value>, b: seq<Value>)
    ensures RunAll(env, doc, a + b) ==
            match RunAll(env, doc, a) case None => None case Some(middle) => RunAll(env, middle, b)
    decreases a
  {
    if a == [] {
      assert a + b == b;
    } else {
      assert (a + b)[0] == a[0] && (a + b)[1..] == a[1..] + b;
      var first := ApplyOperation(env, doc, a[0]);
      if first.result.Ok? {
        RunSplits(env, first.doc, a[1..], b);
      }
    }
  }

  lemma {:induction false} RepresentableConcat(a: seq<Value>, b: seq<Value>)
    ensures AllRepresentable(a + b) <==> AllRepresentable(a) && AllRepresentable(b)
  {
    if a == [] {
      assert a + b == b;
    } else {
      assert (a + b)[0] == a[0] && (a + b)[1..] == a[1..] + b;
      RepresentableConcat(a[1..], b);
    }
  }

  /** A concatenation applies exactly when its parts apply in turn, with the same outcome; else nothing changes. */
  lemma ConcatenationIsSequence(env: Env, doc: Value, a: seq<Value>, b: seq<Value>)
    ensures var first := ApplyPatch(env, doc, List(a));
            var second := ApplyPatch(env, first.doc, List(b));
            ApplyPatch(env, doc, List(a + b)) ==
            if first.result.Ok? && second.result.Ok? then second else Done(doc, Err)
  {
    RunSplits(env, doc, a, b);
    RepresentableConcat(a, b);
  }

  lemma {:induction false} ReadAndEraseResolveAlike(v: Value, tokens: seq<string>)
    ensures Resolve(v, tokens, None) == Resolve(v, tokens, Some(Erase))
  {
    if |tokens| > 1 {
      var step := ResolveStep(v, tokens[0], None, false);
      if step.Ok? && Child(v, step.value).Some? {
        ReadAndEraseResolveAlike(Child(v, step.value).value, tokens[1..]);
      }
    }
  }

  /** What a removal returns is what a get returned; it fails where the get fails, and at the root. */
  lemma RemoveReturnsWhatGetReturned(doc: Value, tokens: seq<string>)
    ensures PointerRemove(doc, tokens).result == if tokens == [] then Err else PointerGet(doc, tokens)
    ensures PointerRemove(doc, tokens).result.Err? ==> PointerRemove(doc, tokens).doc == doc
  {
    GetResolves(doc, tokens);
    RemoveResolves(doc, tokens);
    ReadAndEraseResolveAlike(doc, tokens);
    var p := Resolve(doc, tokens, None);
    if p.Ok? {
      RemoveWhereGet(doc, p.value);
      ResolveLength(doc, tokens, None);
    }
  }

  lemma {:induction false} ResolveLength(v: Value, tokens: seq<string>, edit: Option<Edit>)
    requires Resolve(v, tokens, edit).Ok?
    ensures |Resolve(v, tokens, edit).value| == |tokens|
  {
    if |tokens| > 1 {
      var step := ResolveStep(v, tokens[0], edit, false).value;
      ResolveLength(Child(v, step).value, tokens[1..], edit);
    }
  }

  /** A move is a removal followed by adding what was removed; a move below its own source is refused. */
  lemma MoveIsRemoveThenAdd(doc: Value, from: seq<string>, tokens: seq<string>)
    ensures var removed := PointerRemove(doc, from);
            var below := |from| < |tokens| && tokens[..|from|] == from;
            MoveTokens(doc, from, tokens) ==
            match removed.result
            case Ok(x) => if below then Done(doc, Err) else PointerAdd(removed.doc, tokens, x)
            case Err => Done(doc, Err)
  {
    RemoveReturnsWhatGetReturned(doc, from);
  }

  /** A readable place resolves the same way for writing: the append token is never readable. */
  lemma {:induction false} ReadableResolvesForSet(v: Value, tokens: seq<string>)
    requires PointerGet(v, tokens).Ok?
    ensures Resolve(v, tokens, Some(Assign)) == Resolve(v, tokens, None)
  {
    if tokens != [] {
      if tokens[0] == "-" {
        AppendTokenIsNoIndex();
      }
      if |tokens| > 1 {
        var step := ResolveStep(v, tokens[0], None, false);
        ReadableResolvesForSet(Child(v, step.value).value, tokens[1..]);
      }
    }
  }

  lemma AppendTokenIsNoIndex()
    ensures ParseUsize("-").None?
  {
    assert !IsDigits("-") by {
      assert "-"[0] == '-';
    }
  }

  function ContainerSize(v: Value): nat {
    match v
    case Map(_, entries) => |entries|
    case Set(_, entries) => |entries|
    case List(items) => |items|
    case _ => 0
  }

  lemma AssignKeepsSize(v: Value, p: Path, x: Value)
    requires p != [] && GetAt(v, p).Some? && EditAt(v, Assign, p, x).Some?
    ensures ContainerSize(EditAt(v, Assign, p, x).value) == ContainerSize(v)
  {
    if |p| == 1 {
      assert GetAt(v, p) == Child(v, p[0]);
    }
  }

  lemma {:induction false} GetBelow(v: Value, p: Path, q: Path)
    requires IsPrefix(q, p) && GetAt(v, q).Some?
    ensures GetAt(v, p) == GetAt(GetAt(v, q).value, p[|q|..])
  {
    if q == [] {
      assert p[0..] == p;
    } else {
      PrefixTail(q, p);
      GetBelow(Child(v, q[0]).value, p[1..], q[1..]);
      assert p[1..][|q[1..]|..] == p[|q|..];
    }
  }

  lemma {:induction false} SetSucceedsWhereReadable(v: Value, p: Path, x: Value)
    requires GetAt(v, p).Some?
    ensures SetAt(v, p, x).Some?
  {
    if |p| > 1 {
      SetSucceedsWhereReadable(Child(v, p[0]).value, p[1..], x);
    }
  }

  /**
   A replacement succeeds exactly where a get does. It then holds the new value
   there, and everywhere outside it the same locations exist with containers of
   the same size; in particular no array grows through the append token.
   */
  lemma ReplaceKeepsSizes(doc: Value, tokens: seq<string>, x: Value, q: Path)
    ensures ReplaceTokens(doc, tokens, Ok(x)).result.Ok? <==> PointerGet(doc, tokens).Ok?
    ensures PointerGet(doc, tokens).Ok? ==> Resolve(doc, tokens, None).Ok?
    ensures PointerGet(doc, tokens).Ok? ==>
              var p, doc' := Resolve(doc, tokens, None).value, ReplaceTokens(doc, tokens, Ok(x)).doc;
              && GetAt(doc', p) == Some(x)
              && (!IsPrefix(p, q) ==>
                    && GetAt(doc', q).Some? == GetAt(doc, q).Some?
                    && (GetAt(doc, q).Some? ==> ContainerSize(GetAt(doc', q).value) == ContainerSize(GetAt(doc, q).value)))
  {
    GetResolves(doc, tokens);
    SetResolves(doc, tokens, x);
    if PointerGet(doc, tokens).Ok? {
      ReadableResolvesForSet(doc, tokens);
      var p := Resolve(doc, tokens, None).value;
      SetSucceedsWhereReadable(doc, p, x);
      GetAfterSet(doc, p, x);
      if !IsPrefix(p, q) {
        OutsideKeepsSize(doc, p, x, q);
      }
    }
  }

  lemma OutsideKeepsSize(doc: Value, p: Path, x: Value, q: Path)
    requires GetAt(doc, p).Some? && SetAt(doc, p, x).Some? && !IsPrefix(p, q)
    ensures var doc' := SetAt(doc, p, x).value;
            && GetAt(doc', q).Some? == GetAt(doc, q).Some?
            && (GetAt(doc, q).Some? ==> ContainerSize(GetAt(doc', q).value) == ContainerSize(GetAt(doc, q).value))
  {
    if IsPrefix(q, p) {
      EditAbove(doc, Assign, p, x, q);
      GetBelow(doc, p, q);
      SetSucceedsWhereReadable(GetAt(doc, q).value, p[|q|..], x);
      AssignKeepsSize(GetAt(doc, q).value, p[|q|..], x);
    } else {
      SetFrame(doc, p, x, q);
    }
  }

  /** A move that fails half way has already removed its source: atomicity comes from the candidate copy alone. */
  lemma FailedMoveIsNotAtomic()
    ensures exists doc: Value, from: seq<string>, tokens: seq<string> ::
              MoveTokens(doc, from, tokens).result.Err? && MoveTokens(doc, from, tokens).doc != doc
  {
    var doc, from, tokens := List([Int(1)]), ["0"], ["9"];
    assert Decimal("0"[..0]) == 0 && Decimal("9"[..0]) == 0;
    assert ParseUsize("0") == Some(0) && ParseUsize("9") == Some(9);
    assert PointerGet(doc, from) == Ok(Int(1));
    assert [Int(1)][..0] + [Int(1)][1..] == [];
    assert PointerRemove(doc, from) == Done(List([]), Ok(Int(1)));
    assert MoveTokens(doc, from, tokens).result.Err? && MoveTokens(doc, from, tokens).doc != doc;
  }

  lemma FailedAddLeaves(doc: Value, tokens: seq<string>, x: Value)
    ensures PointerAdd(doc, tokens, x).result.Err? ==> PointerAdd(doc, tokens, x).doc == doc
  {
    AddResolves(doc, tokens, x);
  }

  lemma FailedSetLeaves(doc: Value, tokens: seq<string>, x: Value)
    ensures PointerSet(doc, tokens, x).result.Err? ==> PointerSet(doc, tokens, x).doc == doc
  {
    SetResolves(doc, tokens, x);
  }

  /** Every operation but a move leaves the document alone when it fails. */
  lemma OtherOperationsAreAtomic(env: Env, doc: Value, op: string, tokens: seq<string>, value: Result<Value>, from: Result<seq<string>>)
    requires op != "move" && ApplyNamed(env, doc, op, tokens, value, from).result.Err?
    ensures ApplyNamed(env, doc, op, tokens, value, from).doc == doc
  {
    RemoveReturnsWhatGetReturned(doc, tokens);
    if value.Ok? {
      FailedAddLeaves(doc, tokens, value.value);
      FailedSetLeaves(doc, tokens, value.value);
    }
    if from.Ok? && PointerGet(doc, from.value).Ok? {
      FailedAddLeaves(doc, tokens, PointerGet(doc, from.value).value);
    }
  }
}
