/** What each JSON Patch operation means at resolved locations, and when a move is below its own source. */
module JsonPatchMeaning {
  import opened Wrappers
  import opened Pairs
  import opened Values
  import opened JsonPointer
  import opened JsonPointerIndex
  import opened JsonPointerLaws
  import opened JsonPatch
  import ValueContract

  // ----- the operations at resolved locations -----

  /** The value at the place the tokens name. */
  function Read(doc: Value, tokens: seq<string>): Option<Value> {
    match Resolve(doc, tokens, None) case Err => None case Ok(p) => GetAt(doc, p)
  }

  /** The document with `x` added at the place the tokens name. */
  function With(doc: Value, tokens: seq<string>, x: Value): Option<Value> {
    match Resolve(doc, tokens, Some(Insert)) case Err => None case Ok(p) => AddAt(doc, p, x)
  }

  /** The document without the place the tokens name. */
  function Without(doc: Value, tokens: seq<string>): Option<Value> {
    match Resolve(doc, tokens, None) case Err => None case Ok(p) => RemoveAt(doc, p)
  }

  /** The document with the existing value at the place the tokens name replaced. */
  function Replaced(doc: Value, tokens: seq<string>, x: Value): Option<Value> {
    if Read(doc, tokens).None? then None else SetAt(doc, Resolve(doc, tokens, None).value, x)
  }

  predicate BelowSource(from: seq<string>, tokens: seq<string>) { |from| < |tokens| && tokens[..|from|] == from }

  function Copied(doc: Value, from: seq<string>, tokens: seq<string>): Option<Value> {
    if Read(doc, from).None? then None else With(doc, tokens, Read(doc, from).value)
  }

  function Relocated(doc: Value, from: seq<string>, tokens: seq<string>): Option<Value> {
    if BelowSource(from, tokens) || Without(doc, from).None? || Read(doc, from).None? then None
    else With(Without(doc, from).value, tokens, Read(doc, from).value)
  }

  function Tested(env: Env, doc: Value, tokens: seq<string>, x: Value): Option<Value> {
    if Read(doc, tokens).Some? && ValueContract.Eq(env, Read(doc, tokens).value, x) then Some(doc) else None
  }

  /** The document after a named operation, or nothing if the operation fails. */
  function After(env: Env, doc: Value, op: string, tokens: seq<string>, value: Result<Value>, from: Result<seq<string>>): Option<Value> {
    if op == "add" && value.Ok? then With(doc, tokens, value.value)
    else if op == "remove" then Without(doc, tokens)
    else if op == "replace" && value.Ok? then Replaced(doc, tokens, value.value)
    else if op == "copy" && from.Ok? then Copied(doc, from.value, tokens)
    else if op == "move" && from.Ok? then Relocated(doc, from.value, tokens)
    else if op == "test" && value.Ok? then Tested(env, doc, tokens, value.value)
    else None
  }

  /** An operation ends as `after` says: in that document, or in an error. */
  predicate Ends(r: Done<()>, after: Option<Value>) {
    (r.result.Ok? <==> after.Some?) && (after.Some? ==> r.doc == after.value)
  }

  function Given<T>(r: Result<T>): Option<T> { match r case Err => None case Ok(x) => Some(x) }

  lemma ReadMeans(doc: Value, tokens: seq<string>)
    ensures Given(PointerGet(doc, tokens)) == Read(doc, tokens)
  {
    GetResolves(doc, tokens);
  }

  lemma AddMeans(doc: Value, tokens: seq<string>, x: Value)
    ensures Ends(PointerAdd(doc, tokens, x), With(doc, tokens, x))
  {
    AddResolves(doc, tokens, x);
  }

  lemma RemoveMeans(doc: Value, tokens: seq<string>)
    ensures var r := PointerRemove(doc, tokens);
            if Without(doc, tokens).Some? then Read(doc, tokens).Some? && r == Done(Without(doc, tokens).value, Ok(Read(doc, tokens).value))
            else r == Done(doc, Err)
  {
    RemoveResolves(doc, tokens);
    ReadAndEraseResolveAlike(doc, tokens);
    if Resolve(doc, tokens, None).Ok? {
      RemoveWhereGet(doc, Resolve(doc, tokens, None).value);
    }
  }

  lemma ReplaceMeans(doc: Value, tokens: seq<string>, x: Value)
    ensures Ends(ReplaceTokens(doc, tokens, Ok(x)), Replaced(doc, tokens, x))
  {
    ReadMeans(doc, tokens);
    SetResolves(doc, tokens, x);
    if Read(doc, tokens).Some? {
      ReadableResolvesForSet(doc, tokens);
      SetSucceedsWhereReadable(doc, Resolve(doc, tokens, None).value, x);
    }
  }

  lemma CopyMeans(doc: Value, from: seq<string>, tokens: seq<string>)
    ensures Ends(CopyTokens(doc, from, tokens), Copied(doc, from, tokens))
  {
    ReadMeans(doc, from);
    if Read(doc, from).Some? {
      AddMeans(doc, tokens, Read(doc, from).value);
    }
  }

  lemma MoveMeans(doc: Value, from: seq<string>, tokens: seq<string>)
    ensures Ends(MoveTokens(doc, from, tokens), Relocated(doc, from, tokens))
  {
    ReadMeans(doc, from);
    RemoveMeans(doc, from);
    if Without(doc, from).Some? {
      AddMeans(Without(doc, from).value, tokens, Read(doc, from).value);
    }
  }

  lemma TestMeans(env: Env, doc: Value, tokens: seq<string>, x: Value)
    ensures Ends(TestTokens(env, doc, tokens, Ok(x)), Tested(env, doc, tokens, x))
  {
    ReadMeans(doc, tokens);
  }

  /** Every operation does at resolved locations what its name says, and fails exactly where that is impossible. */
  lemma OperationMeans(env: Env, doc: Value, op: string, tokens: seq<string>, value: Result<Value>, from: Result<seq<string>>)
    ensures Ends(ApplyNamed(env, doc, op, tokens, value, from), After(env, doc, op, tokens, value, from))
  {
    if op == "remove" {
      RemoveMeans(doc, tokens);
    } else if op == "add" && value.Ok? {
      AddMeans(doc, tokens, value.value);
    } else if op == "replace" && value.Ok? {
      ReplaceMeans(doc, tokens, value.value);
    } else if op == "test" && value.Ok? {
      TestMeans(env, doc, tokens, value.value);
    } else if op == "copy" && from.Ok? {
      CopyMeans(doc, from.value, tokens);
    } else if op == "move" && from.Ok? {
      MoveMeans(doc, from.value, tokens);
    }
  }

  // ----- what a failed move leaves -----

  lemma EraseChanges(v: Value, step: Step, x: Value)
    requires EditChild(v, Erase, step, x).Some?
    ensures EditChild(v, Erase, step, x).value != v
  {
    match v {
      case List(items) => assert |items[..step.at] + items[step.at + 1..]| < |items|;
      case Map(_, entries) => assert |Delete(BY_NAME, entries, Str(step.name))| < |entries|;
    }
  }

  lemma WithOtherChild(v: Value, step: Step, x: Value)
    requires Child(v, step).Some? && x != Child(v, step).value
    ensures WithChild(v, step, x) != v
  {
    match v {
      case List(items) => assert items[step.at := x][step.at] == x;
      case Map(_, entries) =>
        var i := Slot(entries, step.name);
        assert entries[i := (entries[i].0, x)][i] == (entries[i].0, x);
    }
  }

  /** A removal always changes the document. */
  lemma {:induction false} RemovalChanges(v: Value, p: Path)
    requires RemoveAt(v, p).Some?
    ensures RemoveAt(v, p).value != v
    decreases p
  {
    if |p| == 1 {
      EraseChanges(v, p[0], Unit);
    } else {
      var c := Child(v, p[0]).value;
      assert RemoveAt(c, p[1..]) == EditAt(c, Erase, p[1..], Unit);
      RemovalChanges(c, p[1..]);
      WithOtherChild(v, p[0], RemoveAt(c, p[1..]).value);
    }
  }

  /**
   A move that fails has changed the document exactly when it got past the test
   for moving below its own source and the source could be removed; what it
   leaves is the document without the source.
   */
  lemma FailedMoveLeaves(doc: Value, from: seq<string>, tokens: seq<string>)
    requires MoveTokens(doc, from, tokens).result.Err?
    ensures MoveTokens(doc, from, tokens).doc != doc <==> !BelowSource(from, tokens) && Without(doc, from).Some?
    ensures MoveTokens(doc, from, tokens).doc ==
            if !BelowSource(from, tokens) && Without(doc, from).Some? then Without(doc, from).value else doc
  {
    ReadMeans(doc, from);
    RemoveMeans(doc, from);
    if Without(doc, from).Some? {
      RemovalChanges(doc, Resolve(doc, from, None).value);
      AddResolves(Without(doc, from).value, tokens, Read(doc, from).value);
    }
  }

  // ----- below its own source -----

  lemma SameTokenSameStep(v: Value, t: string, last: bool)
    ensures ResolveStep(v, t, None, last) == ResolveStep(v, t, Some(Insert), false)
  {
  }

  lemma BelowTail(from: seq<string>, tokens: seq<string>)
    requires from != [] && tokens != []
    ensures BelowSource(from, tokens) <==> from[0] == tokens[0] && BelowSource(from[1..], tokens[1..])
  {
    if |from| < |tokens| {
      assert tokens[..|from|] == [tokens[0]] + tokens[1..][..|from| - 1];
      assert from == [from[0]] + from[1..];
    }
  }

  predicate ProperPrefix(p: Path, q: Path) { |p| < |q| && IsPrefix(p, q) }

  /** What a list of at least two tokens resolves to. */
  lemma ResolveTail(v: Value, tokens: seq<string>, edit: Option<Edit>)
    requires |tokens| > 1 && Resolve(v, tokens, edit).Ok?
    ensures var p, step := Resolve(v, tokens, edit).value, ResolveStep(v, tokens[0], edit, false);
            && step.Ok? && Child(v, step.value).Some? && p != [] && p[0] == step.value
            && Resolve(Child(v, step.value).value, tokens[1..], edit) == Ok(p[1..])
  {
    var step := ResolveStep(v, tokens[0], edit, false).value;
    var rest := Resolve(Child(v, step).value, tokens[1..], edit).value;
    assert ([step] + rest)[1..] == rest;
  }

  /** A token the index parser takes for position `i`. */
  predicate NamesIndex(token: string, i: nat) { token == Numeral(i) || PlusAlias(token, i) }

  /** Two tokens lead to the same child: they are the same, or name one position of an array. */
  ghost predicate SamePlace(v: Value, s: string, t: string) {
    s == t || (v.List? && exists i :: 0 <= i < |v.items| && NamesIndex(s, i) && NamesIndex(t, i))
  }

  /** The tokens of the shorter list lead where the first tokens of the longer one lead. */
  ghost predicate AliasAlong(v: Value, from: seq<string>, tokens: seq<string>)
    requires |from| < |tokens|
    decreases from
  {
    from == [] ||
    (&& SamePlace(v, from[0], tokens[0])
     && (|from| == 1 ||
         match ResolveStep(v, from[0], None, false)
         case Err => false
         case Ok(step) => Child(v, step).Some? && AliasAlong(Child(v, step).value, from[1..], tokens[1..])))
  }

  lemma IndexNamed(t: string, length: nat, i: nat, k: nat)
    requires PointerIndex(t, length, false) == Ok(i) && k < length
    ensures NamesIndex(t, k) <==> i == k
  {
    IndexTokens(t, length, i);
    IndexTokens(t, length, k);
    NumeralReads(k);
    NumeralReads(i);
  }

  lemma SameIndexIff(s: string, t: string, length: nat, i: nat, j: nat)
    requires PointerIndex(s, length, false) == Ok(i) && PointerIndex(t, length, false) == Ok(j)
    ensures i == j <==> s == t || exists k :: 0 <= k < length && NamesIndex(s, k) && NamesIndex(t, k)
  {
    forall k | 0 <= k < length ensures (NamesIndex(s, k) <==> i == k) && (NamesIndex(t, k) <==> j == k) {
      IndexNamed(s, length, i, k);
      IndexNamed(t, length, j, k);
    }
    IndexTokens(s, length, i);
    assert NamesIndex(s, i) && (NamesIndex(t, i) <==> j == i);
  }

  lemma SameStepIffSamePlace(v: Value, s: string, t: string, last: bool)
    requires ResolveStep(v, s, None, last).Ok? && ResolveStep(v, t, Some(Insert), false).Ok?
    ensures ResolveStep(v, s, None, last) == ResolveStep(v, t, Some(Insert), false) <==> SamePlace(v, s, t)
  {
    if v.List? {
      SameIndexIff(s, t, |v.items|, ResolveStep(v, s, None, last).value.at, ResolveStep(v, t, Some(Insert), false).value.at);
    }
  }

  /** One resolved location is properly above another exactly when its tokens lead along the other's. */
  lemma {:induction false} AboveIffAlias(v: Value, from: seq<string>, tokens: seq<string>)
    requires |from| < |tokens| && Resolve(v, from, None).Ok? && Resolve(v, tokens, Some(Insert)).Ok?
    ensures ProperPrefix(Resolve(v, from, None).value, Resolve(v, tokens, Some(Insert)).value) <==> AliasAlong(v, from, tokens)
    decreases from
  {
    ResolveLength(v, from, None);
    ResolveLength(v, tokens, Some(Insert));
    if from != [] {
      var p, q := Resolve(v, from, None).value, Resolve(v, tokens, Some(Insert)).value;
      PrefixTail(p, q);
      ResolveTail(v, tokens, Some(Insert));
      SameStepIffSamePlace(v, from[0], tokens[0], |from| == 1);
      if |from| > 1 {
        ResolveTail(v, from, None);
        if p[0] == q[0] {
          AboveIffAlias(Child(v, p[0]).value, from[1..], tokens[1..]);
        }
      }
    }
  }

  lemma {:induction false} SameTokensAlong(v: Value, from: seq<string>, tokens: seq<string>)
    requires BelowSource(from, tokens) && Resolve(v, from, None).Ok?
    ensures AliasAlong(v, from, tokens)
    decreases from
  {
    if from != [] {
      BelowTail(from, tokens);
      if |from| > 1 {
        ResolveTail(v, from, None);
        SameTokensAlong(Child(v, Resolve(v, from, None).value[0]).value, from[1..], tokens[1..]);
      }
    }
  }

  /**
   The token test of a move decides whether the target is below the source
   exactly when the target's first tokens are not other names for the source.
   */
  lemma GuardExactlyWhen(v: Value, from: seq<string>, tokens: seq<string>)
    requires Resolve(v, from, None).Ok? && Resolve(v, tokens, Some(Insert)).Ok?
    ensures var below := ProperPrefix(Resolve(v, from, None).value, Resolve(v, tokens, Some(Insert)).value);
            (BelowSource(from, tokens) <==> below) <==>
            !(|from| < |tokens| && tokens[..|from|] != from && AliasAlong(v, from, tokens))
  {
    ResolveLength(v, from, None);
    ResolveLength(v, tokens, Some(Insert));
    if |from| < |tokens| {
      AboveIffAlias(v, from, tokens);
      if BelowSource(from, tokens) {
        SameTokensAlong(v, from, tokens);
      }
    }
  }

  /** No token starts with the sign that the index parser lets through. */
  predicate Unsigned(tokens: seq<string>) {
    forall i :: 0 <= i < |tokens| ==> tokens[i] == [] || tokens[i][0] != '+'
  }

  lemma {:induction false} UnsignedAlong(v: Value, from: seq<string>, tokens: seq<string>)
    requires |from| < |tokens| && Unsigned(from) && Unsigned(tokens) && AliasAlong(v, from, tokens)
    ensures tokens[..|from|] == from
    decreases from
  {
    if from != [] {
      assert from[0] == tokens[0];
      if |from| > 1 {
        UnsignedAlong(Child(v, ResolveStep(v, from[0], None, false).value).value, from[1..], tokens[1..]);
      } else {
        assert tokens[1..][..0] == from[1..];
      }
      BelowTail(from, tokens);
    }
  }

  /** Without signs, the token test sees exactly the moves below their own source. */
  lemma GuardIsExact(v: Value, from: seq<string>, tokens: seq<string>)
    requires Unsigned(from) && Unsigned(tokens)
    requires Resolve(v, from, None).Ok? && Resolve(v, tokens, Some(Insert)).Ok?
    ensures BelowSource(from, tokens) <==> ProperPrefix(Resolve(v, from, None).value, Resolve(v, tokens, Some(Insert)).value)
  {
    GuardExactlyWhen(v, from, tokens);
    if |from| < |tokens| && AliasAlong(v, from, tokens) {
      UnsignedAlong(v, from, tokens);
    }
  }

  lemma ZeroTokens(length: nat)
    requires length > 0
    ensures PointerIndex("0", length, false) == PointerIndex("+0", length, false) == Ok(0)
  {
    assert Decimal("0"[..0]) == 0 && "+0"[1..] == "0";
    assert ParseUsize("0") == Some(0) && ParseUsize("+0") == Some(0);
  }

  lemma SignedPlaces(inner: Value, doc: Value)
    requires inner == List([]) && doc == List([inner, inner])
    ensures Resolve(doc, ["+0"], None) == Ok([Index(0)])
    ensures Resolve(doc, ["0", "-"], Some(Insert)) == Ok([Index(0), Index(0)])
  {
    ZeroTokens(2);
    var tokens := ["0", "-"];
    assert tokens[1..] == ["-"] && Resolve(inner, ["-"], Some(Insert)) == Ok([Index(0)]);
    assert ResolveStep(doc, "0", Some(Insert), false) == Ok(Index(0)) && Child(doc, Index(0)) == Some(inner);
    assert [Index(0)] + [Index(0)] == [Index(0), Index(0)];
  }

  lemma SignedMoves(inner: Value, doc: Value)
    requires inner == List([]) && doc == List([inner, inner])
    ensures MoveTokens(doc, ["+0"], ["0", "-"]).result.Ok?
  {
    var from, tokens, rest := ["+0"], ["0", "-"], List([inner]);
    ZeroTokens(1);
    ZeroTokens(2);
    assert doc.items[..0] + doc.items[1..] == [inner];
    assert PointerRemove(doc, from) == Done(rest, Ok(inner)) && PointerGet(doc, from) == Ok(inner);
    assert tokens[1..] == ["-"] && PointerAdd(inner, ["-"], inner).result.Ok?;
    assert PointerAdd(rest, tokens, inner).result.Ok?;
    assert tokens[..1] == ["0"] && "0" != "+0";
  }

  /** With a sign the test can be passed by: a move from `/+0` to below `/0` goes through. */
  lemma SignedMoveIsNotRefused()
    ensures exists doc: Value, from: seq<string>, tokens: seq<string> ::
              && Resolve(doc, from, None).Ok? && Resolve(doc, tokens, Some(Insert)).Ok?
              && ProperPrefix(Resolve(doc, from, None).value, Resolve(doc, tokens, Some(Insert)).value)
              && MoveTokens(doc, from, tokens).result.Ok?
  {
    var doc, from, tokens := List([List([]), List([])]), ["+0"], ["0", "-"];
    SignedPlaces(List([]), doc);
    SignedMoves(List([]), doc);
    assert IsPrefix([Index(0)], [Index(0), Index(0)]);
    assert Resolve(doc, from, None).Ok? && MoveTokens(doc, from, tokens).result.Ok?;
  }
}
