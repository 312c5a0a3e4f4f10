/**
 The operations of section 4 of RFC 6902 over the locations of RFC 6901, stated
 as relations that know nothing of the code, and exactly when the code agrees.
 */
module JsonPatchStandard {
  import Arithmetic
  import opened Wrappers
  import opened Values
  import opened JsonPointer
  import opened JsonPointerIndex
  import opened JsonPointerLaws
  import opened JsonPatch
  import opened JsonPatchMeaning
  import opened JsonEquality

  // ----- locations (section 4 of RFC 6901) -----

  /** A token names a member by its name and an element by its numeral; no array has 2^64 elements. */
  predicate Names(v: Value, token: string, step: Step) {
    || (v.Map? && step == Key(token))
    || (v.List? && step.Index? && step.at < Arithmetic.TWO_64 && token == Numeral(step.at))
  }

  /** The tokens locate an existing value at `p`. */
  predicate Locates(v: Value, tokens: seq<string>, p: Path)
    decreases tokens
  {
    && |tokens| == |p|
    && (tokens == [] ||
        (Names(v, tokens[0], p[0]) && Child(v, p[0]).Some? && Locates(Child(v, p[0]).value, tokens[1..], p[1..])))
  }

  /** Where a value may be added: any member, an element or the end of an array, which `-` names too. */
  predicate MayAdd(v: Value, token: string, step: Step) {
    || (v.Map? && step == Key(token))
    || (v.List? && step.Index? && step.at == |v.items| && token == "-")
    || (v.List? && step.Index? && step.at <= |v.items| && step.at < Arithmetic.TWO_64 && token == Numeral(step.at))
  }

  /** The tokens name the place `p` for an addition: its container exists. */
  predicate Targets(v: Value, tokens: seq<string>, p: Path)
    decreases tokens
  {
    && |tokens| == |p|
    && (tokens == [] ||
        if |tokens| == 1 then MayAdd(v, tokens[0], p[0])
        else Names(v, tokens[0], p[0]) && Child(v, p[0]).Some? && Targets(Child(v, p[0]).value, tokens[1..], p[1..]))
  }

  // ----- operations (section 4 of RFC 6902) -----

  /** What an operation leaves; removing the whole document leaves nothing. */
  datatype Outcome = Document(doc: Value) | Nothing

  ghost predicate Adds(before: Outcome, tokens: seq<string>, x: Value, after: Value) {
    match before
    case Nothing => tokens == [] && after == x
    case Document(doc) => exists p :: Targets(doc, tokens, p) && AddAt(doc, p, x) == Some(after)
  }

  function Removed(doc: Value, p: Path): Outcome
    requires GetAt(doc, p).Some?
  {
    RemoveWhereGet(doc, p);
    if p == [] then Nothing else Document(RemoveAt(doc, p).value)
  }

  /** The place `p` is properly above the place the tokens name. */
  predicate Above(doc: Value, p: Path, tokens: seq<string>) {
    |p| < |tokens| && Locates(doc, tokens[..|p|], p)
  }

  /** The operation has the outcome `after` on the document. */
  ghost predicate Describes(env: Env, doc: Value, op: string, tokens: seq<string>, value: Result<Value>, from: Result<seq<string>>, after: Outcome) {
    || (op == "add" && value.Ok? && after.Document? && Adds(Document(doc), tokens, value.value, after.doc))
    || (op == "remove" && exists p :: Locates(doc, tokens, p) && GetAt(doc, p).Some? && after == Removed(doc, p))
    || (op == "replace" && value.Ok? && after.Document? &&
        exists p :: Locates(doc, tokens, p) && SetAt(doc, p, value.value) == Some(after.doc))
    || (op == "copy" && from.Ok? && after.Document? &&
        exists p :: Locates(doc, from.value, p) && GetAt(doc, p).Some? && Adds(Document(doc), tokens, GetAt(doc, p).value, after.doc))
    || (op == "move" && from.Ok? && after.Document? &&
        exists p :: Locates(doc, from.value, p) && GetAt(doc, p).Some? && !Above(doc, p, tokens) &&
                    Adds(Removed(doc, p), tokens, GetAt(doc, p).value, after.doc))
    || (op == "test" && value.Ok? && after == Document(doc) &&
        exists p :: Locates(doc, tokens, p) && GetAt(doc, p).Some? && Same(env, GetAt(doc, p).value, value.value))
  }

  // ----- the code's locations against the standard's -----

  /** Some array step was named with a sign. */
  predicate Signed(tokens: seq<string>, p: Path) {
    exists i :: 0 <= i < |tokens| && i < |p| && p[i].Index? && tokens[i] != [] && tokens[i][0] == '+'
  }

  predicate SignedStep(token: string, step: Step) { step.Index? && token != [] && token[0] == '+' }

  lemma SignedTail(tokens: seq<string>, p: Path)
    requires tokens != [] && p != []
    ensures Signed(tokens, p) <==> SignedStep(tokens[0], p[0]) || Signed(tokens[1..], p[1..])
  {
    if Signed(tokens, p) {
      var i :| 0 <= i < |tokens| && i < |p| && p[i].Index? && tokens[i] != [] && tokens[i][0] == '+';
      assert i > 0 ==> p[1..][i - 1] == p[i] && tokens[1..][i - 1] == tokens[i];
    }
    if Signed(tokens[1..], p[1..]) {
      var i :| 0 <= i < |tokens[1..]| && i < |p[1..]| && p[1..][i].Index? && tokens[1..][i] != [] && tokens[1..][i][0] == '+';
      assert p[1..][i] == p[i + 1] && tokens[1..][i] == tokens[i + 1];
    }
  }

  lemma NumeralUnsigned(i: nat)
    ensures Numeral(i) != [] && Numeral(i)[0] != '+'
  {
    NumeralReads(i);
  }

  lemma NamesIff(v: Value, token: string, step: Step, edit: Option<Edit>)
    ensures Names(v, token, step) && Child(v, step).Some? <==>
            ResolveStep(v, token, edit, false) == Ok(step) && Child(v, step).Some? && !SignedStep(token, step)
  {
    if v.List? && step.Index? {
      IndexTokens(token, |v.items|, step.at);
      NumeralUnsigned(step.at);
    }
  }

  lemma {:induction false} LocatesIff(v: Value, tokens: seq<string>, p: Path)
    ensures Locates(v, tokens, p) <==> Resolve(v, tokens, None) == Ok(p) && GetAt(v, p).Some? && !Signed(tokens, p)
    decreases tokens
  {
    if Resolve(v, tokens, None).Ok? {
      ResolveLength(v, tokens, None);
    }
    if tokens != [] && |tokens| == |p| {
      NamesIff(v, tokens[0], p[0], None);
      SignedTail(tokens, p);
      SameTokenSameStep(v, tokens[0], |tokens| == 1);
      SameTokenSameStep(v, tokens[0], false);
      assert p == [p[0]] + p[1..];
      if |tokens| == 1 {
        assert p == [p[0]] && !Signed(tokens[1..], p[1..]);
        assert Child(v, p[0]).Some? ==> GetAt(v, p) == Some(Child(v, p[0]).value);
      } else {
        if Child(v, p[0]).Some? {
          LocatesIff(Child(v, p[0]).value, tokens[1..], p[1..]);
        }
        if Resolve(v, tokens, None).Ok? {
          ResolveTail(v, tokens, None);
        }
      }
    }
  }

  lemma MayAddIff(v: Value, token: string, step: Step)
    ensures MayAdd(v, token, step) <==> ResolveStep(v, token, Some(Insert), true) == Ok(step) && !SignedStep(token, step)
  {
    if v.List? && step.Index? {
      InsertTokens(token, |v.items|, step.at);
      NumeralUnsigned(step.at);
    }
  }

  lemma {:induction false} TargetsIff(v: Value, tokens: seq<string>, p: Path)
    ensures Targets(v, tokens, p) <==> Resolve(v, tokens, Some(Insert)) == Ok(p) && !Signed(tokens, p)
    decreases tokens
  {
    if Resolve(v, tokens, Some(Insert)).Ok? {
      ResolveLength(v, tokens, Some(Insert));
    }
    if tokens != [] && |tokens| == |p| {
      SignedTail(tokens, p);
      assert p == [p[0]] + p[1..];
      if |tokens| == 1 {
        MayAddIff(v, tokens[0], p[0]);
        assert p == [p[0]] && !Signed(tokens[1..], p[1..]);
      } else {
        NamesIff(v, tokens[0], p[0], Some(Insert));
        if Child(v, p[0]).Some? {
          TargetsIff(Child(v, p[0]).value, tokens[1..], p[1..]);
        }
        if Resolve(v, tokens, Some(Insert)).Ok? {
          ResolveTail(v, tokens, Some(Insert));
        }
      }
    }
  }

  // ----- what the standard describes, at the code's locations -----

  predicate ReadsSigned(doc: Value, tokens: seq<string>) {
    Resolve(doc, tokens, None).Ok? && Signed(tokens, Resolve(doc, tokens, None).value)
  }

  predicate AddsSigned(doc: Value, tokens: seq<string>) {
    Resolve(doc, tokens, Some(Insert)).Ok? && Signed(tokens, Resolve(doc, tokens, Some(Insert)).value)
  }

  /** The place the tokens locate, as the code resolves it when no sign was used. */
  lemma Located(doc: Value, tokens: seq<string>, p: Path)
    ensures Locates(doc, tokens, p) <==>
            Read(doc, tokens).Some? && !ReadsSigned(doc, tokens) && p == Resolve(doc, tokens, None).value
    ensures Locates(doc, tokens, p) ==> GetAt(doc, p) == Read(doc, tokens)
  {
    LocatesIff(doc, tokens, p);
  }

  lemma AddsIff(doc: Value, tokens: seq<string>, x: Value, after: Value)
    ensures Adds(Document(doc), tokens, x, after) <==> With(doc, tokens, x) == Some(after) && !AddsSigned(doc, tokens)
  {
    forall p ensures Targets(doc, tokens, p) <==> Resolve(doc, tokens, Some(Insert)) == Ok(p) && !Signed(tokens, p) {
      TargetsIff(doc, tokens, p);
    }
  }

  lemma {:induction false} OneNameOnly(v: Value, s: seq<string>, t: seq<string>, p: Path)
    requires Locates(v, s, p) && Locates(v, t, p)
    ensures s == t
    decreases s
  {
    if s != [] {
      OneNameOnly(Child(v, p[0]).value, s[1..], t[1..], p[1..]);
      assert s == [s[0]] + s[1..] && t == [t[0]] + t[1..];
    }
  }

  /** For a located source the token test is the standard's test of locations. */
  lemma AboveIffBelowSource(doc: Value, p: Path, from: seq<string>, tokens: seq<string>)
    requires Locates(doc, from, p)
    ensures Above(doc, p, tokens) <==> BelowSource(from, tokens)
  {
    if Above(doc, p, tokens) {
      OneNameOnly(doc, from, tokens[..|p|], p);
    }
  }

  lemma RemovedIs(doc: Value, tokens: seq<string>, p: Path)
    requires Locates(doc, tokens, p) && GetAt(doc, p).Some?
    ensures tokens != [] <==> Without(doc, tokens).Some?
    ensures Removed(doc, p) == if tokens == [] then Nothing else Document(Without(doc, tokens).value)
  {
    Located(doc, tokens, p);
    RemoveWhereGet(doc, p);
  }

  predicate Found(doc: Value, tokens: seq<string>) { Read(doc, tokens).Some? && !ReadsSigned(doc, tokens) }

  function Added(doc: Value, tokens: seq<string>, x: Value): Option<Outcome> {
    if With(doc, tokens, x).Some? && !AddsSigned(doc, tokens) then Some(Document(With(doc, tokens, x).value)) else None
  }

  /** The outcome the standard describes, if it describes one. */
  function Outcomes(env: Env, doc: Value, op: string, tokens: seq<string>, value: Result<Value>, from: Result<seq<string>>): Option<Outcome> {
    if op == "add" && value.Ok? then Added(doc, tokens, value.value)
    else if op == "remove" && Found(doc, tokens) then
      Some(if tokens == [] || Without(doc, tokens).None? then Nothing else Document(Without(doc, tokens).value))
    else if op == "replace" && value.Ok? && Found(doc, tokens) && Replaced(doc, tokens, value.value).Some? then
      Some(Document(Replaced(doc, tokens, value.value).value))
    else if op == "copy" && from.Ok? && Found(doc, from.value) then Added(doc, tokens, Read(doc, from.value).value)
    else if op == "move" && from.Ok? && Found(doc, from.value) && !BelowSource(from.value, tokens) then
      if from.value == [] || Without(doc, from.value).None? then Some(Document(Read(doc, from.value).value))
      else Added(Without(doc, from.value).value, tokens, Read(doc, from.value).value)
    else if op == "test" && value.Ok? && Found(doc, tokens) && Same(env, Read(doc, tokens).value, value.value) then Some(Document(doc))
    else None
  }

  lemma AllLocated(doc: Value, tokens: seq<string>)
    ensures forall p {:trigger Locates(doc, tokens, p)} ::
              Locates(doc, tokens, p) <==> Found(doc, tokens) && p == Resolve(doc, tokens, None).value
    ensures Found(doc, tokens) ==> GetAt(doc, Resolve(doc, tokens, None).value) == Read(doc, tokens)
  {
    forall p ensures Locates(doc, tokens, p) <==> Found(doc, tokens) && p == Resolve(doc, tokens, None).value {
      Located(doc, tokens, p);
    }
  }

  lemma MoveFrom(env: Env, doc: Value, from: seq<string>, tokens: seq<string>, value: Result<Value>, after: Outcome, p: Path, x: Value)
    requires Locates(doc, from, p) && GetAt(doc, p) == Some(x)
    requires forall q {:trigger Locates(doc, from, q)} :: Locates(doc, from, q) ==> q == p
    ensures Describes(env, doc, "move", tokens, value, Ok(from), after) <==>
            after.Document? && !BelowSource(from, tokens) && Adds(Removed(doc, p), tokens, x, after.doc)
  {
    AboveIffBelowSource(doc, p, from, tokens);
  }

  lemma MoveAdds(doc: Value, from: seq<string>, tokens: seq<string>, after: Value, p: Path, x: Value)
    requires Locates(doc, from, p) && GetAt(doc, p) == Some(x) == Read(doc, from)
    ensures from == [] ==> (Adds(Removed(doc, p), tokens, x, after) <==> tokens == [] && after == x)
    ensures from != [] ==> Without(doc, from).Some? &&
                           (Adds(Removed(doc, p), tokens, x, after) <==> Added(Without(doc, from).value, tokens, x) == Some(Document(after)))
  {
    RemovedIs(doc, from, p);
    if from != [] {
      AddsIff(Without(doc, from).value, tokens, x, after);
    }
  }

  lemma MoveDescribed(env: Env, doc: Value, from: seq<string>, tokens: seq<string>, value: Result<Value>, after: Outcome)
    ensures Describes(env, doc, "move", tokens, value, Ok(from), after) <==> Outcomes(env, doc, "move", tokens, value, Ok(from)) == Some(after)
  {
    AllLocated(doc, from);
    if Found(doc, from) {
      var p, x := Resolve(doc, from, None).value, Read(doc, from).value;
      MoveFrom(env, doc, from, tokens, value, after, p, x);
      if after.Document? {
        MoveAdds(doc, from, tokens, after.doc, p, x);
      }
    }
  }

  lemma CopyDescribed(env: Env, doc: Value, from: seq<string>, tokens: seq<string>, value: Result<Value>, after: Outcome)
    ensures Describes(env, doc, "copy", tokens, value, Ok(from), after) <==> Outcomes(env, doc, "copy", tokens, value, Ok(from)) == Some(after)
  {
    AllLocated(doc, from);
    if Found(doc, from) && after.Document? {
      assert Locates(doc, from, Resolve(doc, from, None).value);
      AddsIff(doc, tokens, Read(doc, from).value, after.doc);
    }
  }

  lemma AddDescribed(env: Env, doc: Value, tokens: seq<string>, x: Value, from: Result<seq<string>>, after: Outcome)
    ensures Describes(env, doc, "add", tokens, Ok(x), from, after) <==> Outcomes(env, doc, "add", tokens, Ok(x), from) == Some(after)
  {
    if after.Document? {
      AddsIff(doc, tokens, x, after.doc);
    }
  }

  lemma RemoveDescribed(env: Env, doc: Value, tokens: seq<string>, value: Result<Value>, from: Result<seq<string>>, after: Outcome)
    ensures Describes(env, doc, "remove", tokens, value, from, after) <==> Outcomes(env, doc, "remove", tokens, value, from) == Some(after)
  {
    AllLocated(doc, tokens);
    if Found(doc, tokens) {
      assert Locates(doc, tokens, Resolve(doc, tokens, None).value);
      RemovedIs(doc, tokens, Resolve(doc, tokens, None).value);
    }
  }

  lemma ReplaceDescribed(env: Env, doc: Value, tokens: seq<string>, x: Value, from: Result<seq<string>>, after: Outcome)
    ensures Describes(env, doc, "replace", tokens, Ok(x), from, after) <==> Outcomes(env, doc, "replace", tokens, Ok(x), from) == Some(after)
  {
    AllLocated(doc, tokens);
    if Found(doc, tokens) {
      assert Locates(doc, tokens, Resolve(doc, tokens, None).value);
    }
  }

  lemma TestDescribed(env: Env, doc: Value, tokens: seq<string>, x: Value, from: Result<seq<string>>, after: Outcome)
    ensures Describes(env, doc, "test", tokens, Ok(x), from, after) <==> Outcomes(env, doc, "test", tokens, Ok(x), from) == Some(after)
  {
    AllLocated(doc, tokens);
    if Found(doc, tokens) {
      assert Locates(doc, tokens, Resolve(doc, tokens, None).value);
    }
  }

  lemma Described(env: Env, doc: Value, op: string, tokens: seq<string>, value: Result<Value>, from: Result<seq<string>>, after: Outcome)
    ensures Describes(env, doc, op, tokens, value, from, after) <==> Outcomes(env, doc, op, tokens, value, from) == Some(after)
  {
    if op == "remove" {
      RemoveDescribed(env, doc, tokens, value, from, after);
    } else if op == "add" && value.Ok? {
      AddDescribed(env, doc, tokens, value.value, from, after);
    } else if op == "replace" && value.Ok? {
      ReplaceDescribed(env, doc, tokens, value.value, from, after);
    } else if op == "test" && value.Ok? {
      TestDescribed(env, doc, tokens, value.value, from, after);
    } else if op == "copy" && from.Ok? {
      CopyDescribed(env, doc, from.value, tokens, value, after);
    } else if op == "move" && from.Ok? {
      MoveDescribed(env, doc, from.value, tokens, value, after);
    }
  }

  // ----- exactly when the code agrees -----

  /** The result of an operation is the one the standard describes: its document, or an error where it describes none. */
  ghost predicate Conforms(env: Env, r: Done<()>, doc: Value, op: string, tokens: seq<string>, value: Result<Value>, from: Result<seq<string>>) {
    && (r.result.Ok? <==> exists after :: Describes(env, doc, op, tokens, value, from, after))
    && (r.result.Ok? ==> Describes(env, doc, op, tokens, value, from, Document(r.doc)))
  }

  predicate RemoveDeviates(doc: Value, tokens: seq<string>) {
    tokens == [] || (Read(doc, tokens).Some? && ReadsSigned(doc, tokens))
  }

  predicate CopyDeviates(doc: Value, from: seq<string>, tokens: seq<string>) {
    && Read(doc, from).Some? && Resolve(doc, tokens, Some(Insert)).Ok?
    && (ReadsSigned(doc, from) || AddsSigned(doc, tokens))
  }

  predicate MoveDeviates(doc: Value, from: seq<string>, tokens: seq<string>) {
    || (from == [] && tokens == [])
    || (&& !BelowSource(from, tokens) && Without(doc, from).Some?
        && (var rest := Without(doc, from).value;
            Resolve(rest, tokens, Some(Insert)).Ok? && (ReadsSigned(doc, from) || AddsSigned(rest, tokens))))
  }

  predicate TestDeviates(env: Env, doc: Value, tokens: seq<string>, x: Value) {
    && Read(doc, tokens).Some? && Same(env, Read(doc, tokens).value, x)
    && (ReadsSigned(doc, tokens) <==> !Faces(env, Read(doc, tokens).value, x))
  }

  /**
   The operation removes the whole document, or names an array element with a
   sign where everything else is in order, or tests a place that equals the
   expected value but for a number facing an equal one that is not the same value.
   */
  predicate Deviates(env: Env, doc: Value, op: string, tokens: seq<string>, value: Result<Value>, from: Result<seq<string>>) {
    || (op == "add" && value.Ok? && AddsSigned(doc, tokens))
    || (op == "remove" && RemoveDeviates(doc, tokens))
    || (op == "replace" && value.Ok? && Read(doc, tokens).Some? && ReadsSigned(doc, tokens))
    || (op == "copy" && from.Ok? && CopyDeviates(doc, from.value, tokens))
    || (op == "move" && from.Ok? && MoveDeviates(doc, from.value, tokens))
    || (op == "test" && value.Ok? && TestDeviates(env, doc, tokens, value.value))
  }

  /** A place that resolves for an addition can be added to. */
  lemma {:induction false} ResolvedAdds(v: Value, tokens: seq<string>, x: Value)
    ensures Resolve(v, tokens, Some(Insert)).Ok? <==> With(v, tokens, x).Some?
    decreases tokens
  {
    if Resolve(v, tokens, Some(Insert)).Ok? {
      var p := Resolve(v, tokens, Some(Insert)).value;
      if |tokens| == 1 {
        var t := tokens[0];
        if v.List? {
          InsertTokens(t, |v.items|, p[0].at);
        }
      } else if |tokens| > 1 {
        ResolveTail(v, tokens, Some(Insert));
        ResolvedAdds(Child(v, p[0]).value, tokens[1..], x);
      }
    }
  }

  /** `after` is the code's answer and `goal` the standard's. */
  predicate Agree(after: Option<Value>, goal: Option<Outcome>) {
    (after.Some? <==> goal.Some?) && (after.Some? ==> goal == Some(Document(after.value)))
  }

  lemma ConformsIffAgree(env: Env, r: Done<()>, after: Option<Value>, doc: Value, op: string, tokens: seq<string>,
                         value: Result<Value>, from: Result<seq<string>>)
    requires Ends(r, after)
    ensures Conforms(env, r, doc, op, tokens, value, from) <==> Agree(after, Outcomes(env, doc, op, tokens, value, from))
  {
    forall o ensures Describes(env, doc, op, tokens, value, from, o) <==> Outcomes(env, doc, op, tokens, value, from) == Some(o) {
      Described(env, doc, op, tokens, value, from, o);
    }
    var goal := Outcomes(env, doc, op, tokens, value, from);
    if goal.Some? {
      assert Describes(env, doc, op, tokens, value, from, goal.value);
    }
  }

  /** Code and standard agree on the operation exactly when it does not deviate. */
  ghost predicate Settled(env: Env, doc: Value, op: string, tokens: seq<string>, value: Result<Value>, from: Result<seq<string>>) {
    Agree(After(env, doc, op, tokens, value, from), Outcomes(env, doc, op, tokens, value, from)) <==>
    !Deviates(env, doc, op, tokens, value, from)
  }

  lemma AddAgrees(env: Env, doc: Value, tokens: seq<string>, x: Value, from: Result<seq<string>>)
    ensures Settled(env, doc, "add", tokens, Ok(x), from)
  {
    ResolvedAdds(doc, tokens, x);
  }

  lemma ReadsWhereRemoves(doc: Value, tokens: seq<string>)
    ensures Without(doc, tokens).Some? <==> Read(doc, tokens).Some? && tokens != []
  {
    if Resolve(doc, tokens, None).Ok? {
      RemoveWhereGet(doc, Resolve(doc, tokens, None).value);
      ResolveLength(doc, tokens, None);
    }
  }

  lemma RemoveAgrees(env: Env, doc: Value, tokens: seq<string>, value: Result<Value>, from: Result<seq<string>>)
    ensures Settled(env, doc, "remove", tokens, value, from)
  {
    ReadsWhereRemoves(doc, tokens);
  }

  lemma ReplaceAgrees(env: Env, doc: Value, tokens: seq<string>, x: Value, from: Result<seq<string>>)
    ensures Settled(env, doc, "replace", tokens, Ok(x), from)
  {
    if Read(doc, tokens).Some? {
      SetSucceedsWhereReadable(doc, Resolve(doc, tokens, None).value, x);
    }
  }

  lemma CopyAgrees(env: Env, doc: Value, from: seq<string>, tokens: seq<string>, value: Result<Value>)
    ensures Settled(env, doc, "copy", tokens, value, Ok(from))
  {
    if Read(doc, from).Some? {
      ResolvedAdds(doc, tokens, Read(doc, from).value);
    }
  }

  lemma MoveAgrees(env: Env, doc: Value, from: seq<string>, tokens: seq<string>, value: Result<Value>)
    ensures Settled(env, doc, "move", tokens, value, Ok(from))
  {
    ReadsWhereRemoves(doc, from);
    if Without(doc, from).Some? {
      ResolvedAdds(Without(doc, from).value, tokens, Read(doc, from).value);
    }
  }

  lemma TestAgrees(env: Env, doc: Value, tokens: seq<string>, x: Value, from: Result<seq<string>>)
    requires Representable(x)
    ensures Settled(env, doc, "test", tokens, Ok(x), from)
  {
    if Read(doc, tokens).Some? {
      EqIffSame(env, Read(doc, tokens).value, x);
    }
  }

  lemma AgreesExactlyWhen(env: Env, doc: Value, op: string, tokens: seq<string>, value: Result<Value>, from: Result<seq<string>>)
    requires value.Ok? ==> Representable(value.value)
    ensures Settled(env, doc, op, tokens, value, from)
  {
    if op == "remove" {
      RemoveAgrees(env, doc, tokens, value, from);
    } else if op == "add" && value.Ok? {
      AddAgrees(env, doc, tokens, value.value, from);
    } else if op == "replace" && value.Ok? {
      ReplaceAgrees(env, doc, tokens, value.value, from);
    } else if op == "test" && value.Ok? {
      TestAgrees(env, doc, tokens, value.value, from);
    } else if op == "copy" && from.Ok? {
      CopyAgrees(env, doc, from.value, tokens, value);
    } else if op == "move" && from.Ok? {
      MoveAgrees(env, doc, from.value, tokens, value);
    }
  }

  /** The code does what the standard describes, and fails where it describes nothing, except exactly on the deviations. */
  lemma MeetsStandardExactly(env: Env, doc: Value, op: string, tokens: seq<string>, value: Result<Value>, from: Result<seq<string>>)
    requires value.Ok? ==> Representable(value.value)
    ensures Conforms(env, ApplyNamed(env, doc, op, tokens, value, from), doc, op, tokens, value, from) <==>
            !Deviates(env, doc, op, tokens, value, from)
  {
    OperationMeans(env, doc, op, tokens, value, from);
    ConformsIffAgree(env, ApplyNamed(env, doc, op, tokens, value, from), After(env, doc, op, tokens, value, from), doc, op, tokens, value, from);
    AgreesExactlyWhen(env, doc, op, tokens, value, from);
  }

  // ----- inputs on which they differ -----

  lemma FirstElement(items: seq<Value>)
    requires items != []
    ensures Resolve(List(items), ["0"], None) == Ok([Index(0)]) && Read(List(items), ["0"]) == Some(items[0])
  {
    ZeroTokens(|items|);
    var p := [Index(0)];
    assert p[1..] == [] && Child(List(items), p[0]) == Some(items[0]);
    assert GetAt(List(items), p) == Some(items[0]);
  }

  /** Testing a number against an equal one that is not the same value succeeds by the standard and fails in the code. */
  lemma TestOfFacingNumbersFails(env: Env, x: Value, y: Value)
    requires Number(env, x).Some? && Number(env, x) == Number(env, y) && x != y && Representable(y)
    ensures Describes(env, List([x]), "test", ["0"], Ok(y), Err, Document(List([x])))
    ensures ApplyNamed(env, List([x]), "test", ["0"], Ok(y), Err).result.Err?
  {
    var doc, tokens := List([x]), ["0"];
    FirstElement([x]);
    NumeralUnsigned(0);
    LocatesIff(doc, tokens, [Index(0)]);
    EqIffSame(env, x, y);
    TestMeans(env, doc, tokens, y);
    assert Locates(doc, tokens, [Index(0)]);
  }

  /** So testing the first element of `[1]` against `1.0` does. */
  lemma TestOfEqualNumbersFails(env: Env)
    ensures var doc, tokens, x := List([Int(1)]), ["0"], Ok(Float(Finite(1.0)));
            && Describes(env, doc, "test", tokens, x, Err, Document(doc))
            && ApplyNamed(env, doc, "test", tokens, x, Err).result.Err?
  {
    TestOfFacingNumbersFails(env, Int(1), Float(Finite(1.0)));
  }

  /** And so does testing a number kept as spelled, such as `1e2`, against the same spelling in another object. */
  lemma TestOfSpelledNumbersFails(env: Env, a: nat, b: nat)
    requires a != b && env.number(a) == env.number(b)
    ensures var doc, tokens, x := List([Spelled(a)]), ["0"], Ok(Spelled(b));
            && Describes(env, doc, "test", tokens, x, Err, Document(doc))
            && ApplyNamed(env, doc, "test", tokens, x, Err).result.Err?
  {
    TestOfFacingNumbersFails(env, Spelled(a), Spelled(b));
  }

  /** The standard lets the whole document be removed, and moved onto itself; the code refuses both on every document. */
  lemma RootRemovalRefused(env: Env, doc: Value, value: Result<Value>, from: Result<seq<string>>)
    ensures Describes(env, doc, "remove", [], value, from, Nothing) && ApplyNamed(env, doc, "remove", [], value, from).result.Err?
    ensures Describes(env, doc, "move", [], value, Ok([]), Document(doc)) && ApplyNamed(env, doc, "move", [], value, Ok([])).result.Err?
  {
    assert Locates(doc, [], []) && GetAt(doc, []) == Some(doc) && !Above(doc, [], []);
    assert Removed(doc, []) == Nothing && Adds(Nothing, [], doc, doc);
    OperationMeans(env, doc, "remove", [], value, from);
    OperationMeans(env, doc, "move", [], value, Ok([]));
  }

  /** The standard gives `/+0` no meaning in an array; the code removes the first element. */
  lemma SignedRemovalAccepted(env: Env, items: seq<Value>, value: Result<Value>, from: Result<seq<string>>, after: Outcome)
    requires items != []
    ensures !Describes(env, List(items), "remove", ["+0"], value, from, after)
    ensures ApplyNamed(env, List(items), "remove", ["+0"], value, from).result.Ok?
  {
    ZeroTokens(|items|);
    var doc, tokens := List(items), ["+0"];
    assert Resolve(doc, tokens, None) == Ok([Index(0)]) && Signed(tokens, [Index(0)]);
    Described(env, doc, "remove", tokens, value, from, after);
    RemoveWhereGet(doc, [Index(0)]);
    OperationMeans(env, doc, "remove", tokens, value, from);
  }
}
