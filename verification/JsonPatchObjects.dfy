/**
 Operation objects and whole patches against RFC 6902: what the members of an
 operation say, that each operation has the outcome the standard describes for
 it, and that a patch is a chain of such outcomes.
 */
module JsonPatchObjects {
  import opened Wrappers
  import opened Pairs
  import opened Values
  import opened JsonPointer
  import JsonLexer
  import opened JsonPointerText
  import opened JsonPatch
  import opened JsonPatchMeaning
  import opened JsonPatchStandard

  // ----- what an operation object says -----

  datatype Parts = Parts(op: string, tokens: seq<string>, value: Result<Value>, from: Result<seq<string>>)

  /** The member of that name, or that there is none. */
  ghost predicate Holds(fields: Entries, name: string, v: Option<Value>) {
    match v
    case Some(x) => (Str(name), x) in fields
    case None => forall e :: e in fields ==> e.0 != Str(name)
  }

  /** The pointer texts that are not too long. */
  predicate Within(tokens: seq<string>) {
    Utf8Length(Encode(tokens)) <= MAX_INPUT_BYTES && |tokens| <= JsonLexer.MAX_TOKENS
  }

  /** The member is the text of a pointer, or nothing that is one. */
  ghost predicate IsPointer(v: Option<Value>, tokens: Result<seq<string>>) {
    match tokens
    case Ok(ts) => v == Some(Str(Encode(ts))) && Within(ts)
    case Err => v.None? || !v.value.Str? || forall ts :: Within(ts) ==> v.value.s != Encode(ts)
  }

  ghost predicate Says(fields: Entries, p: Parts) {
    && Holds(fields, "op", Some(Str(p.op)))
    && Holds(fields, "path", Some(Str(Encode(p.tokens)))) && Within(p.tokens)
    && Holds(fields, "value", Given(p.value))
    && exists v :: Holds(fields, "from", v) && IsPointer(v, p.from)
  }

  /** The operation has no name, or no target. */
  ghost predicate Malformed(operation: Value) {
    || !operation.Map?
    || (forall op :: !Holds(operation.entries, "op", Some(Str(op))))
    || (forall ts :: Within(ts) ==> !Holds(operation.entries, "path", Some(Str(Encode(ts)))))
  }

  lemma FieldIs(fields: Entries, name: string, v: Option<Value>)
    requires DistinctKeys(BY_NAME, fields) && Holds(fields, name, v)
    ensures Lookup(BY_NAME, fields, Str(name)) == v
  {
    if v.Some? {
      var i :| 0 <= i < |fields| && fields[i] == (Str(name), v.value);
      PositionUnique(BY_NAME, fields, Str(name), i);
    } else {
      assert forall i :: 0 <= i < |fields| ==> fields[i] in fields;
    }
  }

  lemma FieldHolds(fields: Entries, name: string)
    ensures Holds(fields, name, Lookup(BY_NAME, fields, Str(name)))
  {
    var i := Position(BY_NAME, fields, Str(name));
    if i == |fields| {
      forall e | e in fields ensures e.0 != Str(name) {
        var j :| 0 <= j < |fields| && fields[j] == e;
      }
    }
  }

  lemma PointerIs(text: string, tokens: Result<seq<string>>)
    ensures IsPointer(Some(Str(text)), tokens) <==> Decode(text) == tokens
  {
    forall ts ensures Within(ts) && text == Encode(ts) <==> Decode(text) == Ok(ts) {
      DecodeEncode(ts);
      if Decode(text) == Ok(ts) {
        EncodeDecode(text);
      }
    }
  }

  lemma PathIs(operation: Value, name: string, v: Option<Value>, tokens: Result<seq<string>>)
    requires operation.Map? && DistinctKeys(BY_NAME, operation.entries) && Holds(operation.entries, name, v) && IsPointer(v, tokens)
    ensures PathField(operation, name) == tokens
  {
    FieldIs(operation.entries, name, v);
    if v.Some? && v.value.Str? {
      PointerIs(v.value.s, tokens);
    }
  }

  lemma NameAndValueAre(operation: Value, p: Parts)
    requires operation.Map? && DistinctKeys(BY_NAME, operation.entries) && Says(operation.entries, p)
    ensures StringField(operation, "op") == Ok(p.op) && Field(operation, "value") == p.value
  {
    FieldIs(operation.entries, "op", Some(Str(p.op)));
    FieldIs(operation.entries, "value", Given(p.value));
  }

  lemma PathsAre(operation: Value, p: Parts)
    requires operation.Map? && DistinctKeys(BY_NAME, operation.entries) && Says(operation.entries, p)
    ensures PathField(operation, "path") == Ok(p.tokens) && PathField(operation, "from") == p.from
  {
    PathIs(operation, "path", Some(Str(Encode(p.tokens))), Ok(p.tokens));
    var v :| Holds(operation.entries, "from", v) && IsPointer(v, p.from);
    PathIs(operation, "from", v, p.from);
  }

  /** An operation is applied as its members say. */
  lemma SaidIsApplied(env: Env, doc: Value, operation: Value, p: Parts)
    requires operation.Map? && DistinctKeys(BY_NAME, operation.entries) && Says(operation.entries, p)
    ensures ApplyOperation(env, doc, operation) == ApplyNamed(env, doc, p.op, p.tokens, p.value, p.from)
  {
    NameAndValueAre(operation, p);
    PathsAre(operation, p);
  }

  lemma {:induction false} MemberRepresentable(fields: Entries, e: (Value, Value))
    requires PairsRepresentable(fields) && e in fields
    ensures Representable(e.1)
  {
    assert PairRepresentable(fields[0]);
    if e != fields[0] {
      MemberRepresentable(fields[1..], e);
    }
  }

  /** An operation object meets the standard for what its members say, exactly unless that deviates. */
  lemma OperationMeetsStandard(env: Env, doc: Value, operation: Value, p: Parts)
    requires Representable(operation) && operation.Map? && DistinctKeys(BY_NAME, operation.entries) && Says(operation.entries, p)
    ensures Conforms(env, ApplyOperation(env, doc, operation), doc, p.op, p.tokens, p.value, p.from) <==>
            !Deviates(env, doc, p.op, p.tokens, p.value, p.from)
  {
    SaidIsApplied(env, doc, operation, p);
    if p.value.Ok? {
      MemberRepresentable(operation.entries, (Str("value"), p.value.value));
    }
    MeetsStandardExactly(env, doc, p.op, p.tokens, p.value, p.from);
  }

  /** An operation without a name or a target fails and changes nothing. */
  lemma MalformedFails(env: Env, doc: Value, operation: Value)
    requires Malformed(operation)
    ensures ApplyOperation(env, doc, operation) == Done(doc, Err)
  {
    if operation.Map? {
      FieldHolds(operation.entries, "op");
      FieldHolds(operation.entries, "path");
      var path := Lookup(BY_NAME, operation.entries, Str("path"));
      if path.Some? && path.value.Str? {
        PointerIs(path.value.s, Decode(path.value.s));
      }
    }
  }

  /** Every other operation says something. */
  lemma WhatItSays(operation: Value) returns (p: Parts)
    requires !Malformed(operation)
    ensures Says(operation.entries, p)
  {
    var fields := operation.entries;
    var op :| Holds(fields, "op", Some(Str(op)));
    var tokens :| Within(tokens) && Holds(fields, "path", Some(Str(Encode(tokens))));
    FieldHolds(fields, "value");
    FieldHolds(fields, "from");
    var value, from := Lookup(BY_NAME, fields, Str("value")), Lookup(BY_NAME, fields, Str("from"));
    p := Parts(op, tokens, if value.Some? then Ok(value.value) else Err,
               if from.Some? && from.value.Str? then Decode(from.value.s) else Err);
    if from.Some? && from.value.Str? {
      PointerIs(from.value.s, p.from);
    }
    assert IsPointer(from, p.from);
  }

  // ----- a patch is a chain of documents -----

  /** The standard takes `doc` to `next` by what the operation says. */
  ghost predicate Step(env: Env, doc: Value, operation: Value, next: Value) {
    operation.Map? && exists p :: Says(operation.entries, p) && Describes(env, doc, p.op, p.tokens, p.value, p.from, Document(next))
  }

  ghost predicate StepDeviates(env: Env, doc: Value, operation: Value) {
    operation.Map? && exists p :: Says(operation.entries, p) && Deviates(env, doc, p.op, p.tokens, p.value, p.from)
  }

  /** No operation deviates on a document that the standard brings it to. */
  ghost predicate Regular(env: Env, doc: Value, operations: seq<Value>)
    decreases |operations|
  {
    operations == [] ||
    (&& !StepDeviates(env, doc, operations[0])
     && forall next :: Step(env, doc, operations[0], next) ==> Regular(env, next, operations[1..]))
  }

  /** Each document is taken to the one after it by the operation between them. */
  ghost predicate Chain(env: Env, docs: seq<Value>, operations: seq<Value>) {
    && |docs| == |operations| + 1
    && forall i :: 0 <= i < |operations| ==> Step(env, docs[i], operations[i], docs[i + 1])
  }

  lemma OperationSteps(env: Env, doc: Value, operation: Value)
    requires Representable(operation) && (operation.Map? ==> DistinctKeys(BY_NAME, operation.entries))
    requires !StepDeviates(env, doc, operation)
    ensures var r := ApplyOperation(env, doc, operation);
            && (r.result.Ok? ==> Step(env, doc, operation, r.doc))
            && forall next :: Step(env, doc, operation, next) ==> r.result.Ok? && next == r.doc
  {
    if Malformed(operation) {
      MalformedFails(env, doc, operation);
    } else {
      var p := WhatItSays(operation);
      OperationMeetsStandard(env, doc, operation, p);
    }
    forall next | Step(env, doc, operation, next)
      ensures ApplyOperation(env, doc, operation).result.Ok? && next == ApplyOperation(env, doc, operation).doc
    {
      var p :| Says(operation.entries, p) && Describes(env, doc, p.op, p.tokens, p.value, p.from, Document(next));
      OperationMeetsStandard(env, doc, operation, p);
      OneOutcome(env, doc, p, Document(next), Document(ApplyOperation(env, doc, operation).doc));
    }
  }

  lemma OneOutcome(env: Env, doc: Value, p: Parts, a: Outcome, b: Outcome)
    requires Describes(env, doc, p.op, p.tokens, p.value, p.from, a) && Describes(env, doc, p.op, p.tokens, p.value, p.from, b)
    ensures a == b
  {
    Described(env, doc, p.op, p.tokens, p.value, p.from, a);
    Described(env, doc, p.op, p.tokens, p.value, p.from, b);
  }

  ghost predicate DistinctNames(operations: seq<Value>) {
    forall i :: 0 <= i < |operations| ==> operations[i].Map? ==> DistinctKeys(BY_NAME, operations[i].entries)
  }

  lemma ChainTail(env: Env, docs: seq<Value>, operations: seq<Value>)
    requires operations != [] && |docs| == |operations| + 1
    ensures Chain(env, docs, operations) <==> Step(env, docs[0], operations[0], docs[1]) && Chain(env, docs[1..], operations[1..])
  {
    if Step(env, docs[0], operations[0], docs[1]) && Chain(env, docs[1..], operations[1..]) {
      forall i | 0 <= i < |operations| ensures Step(env, docs[i], operations[i], docs[i + 1]) {
        if i > 0 {
          assert Step(env, docs[1..][i - 1], operations[1..][i - 1], docs[1..][i - 1 + 1]);
        }
      }
    }
    if Chain(env, docs, operations) {
      forall i | 0 <= i < |operations[1..]| ensures Step(env, docs[1..][i], operations[1..][i], docs[1..][i + 1]) {
        assert Step(env, docs[i + 1], operations[i + 1], docs[i + 1 + 1]);
      }
    }
  }

  lemma {:induction false} RunIsChain(env: Env, doc: Value, operations: seq<Value>) returns (docs: seq<Value>)
    requires AllRepresentable(operations) && DistinctNames(operations) && Regular(env, doc, operations)
    requires RunAll(env, doc, operations).Some?
    ensures Chain(env, docs, operations) && docs[0] == doc && docs[|docs| - 1] == RunAll(env, doc, operations).value
    decreases operations
  {
    if operations == [] {
      docs := [doc];
    } else {
      var next := ApplyOperation(env, doc, operations[0]).doc;
      OperationSteps(env, doc, operations[0]);
      var rest := RunIsChain(env, next, operations[1..]);
      docs := [doc] + rest;
      assert docs[1..] == rest;
      ChainTail(env, docs, operations);
    }
  }

  lemma {:induction false} ChainIsRun(env: Env, docs: seq<Value>, operations: seq<Value>)
    requires AllRepresentable(operations) && DistinctNames(operations) && Chain(env, docs, operations)
    requires Regular(env, docs[0], operations)
    ensures RunAll(env, docs[0], operations) == Some(docs[|docs| - 1])
    decreases operations
  {
    if operations != [] {
      ChainTail(env, docs, operations);
      OperationSteps(env, docs[0], operations[0]);
      ChainIsRun(env, docs[1..], operations[1..]);
    }
  }

  /**
   When no operation deviates, a patch succeeds exactly when there is a chain of
   documents from the target, each step as the standard describes it, and leaves
   the last of them; when there is none it leaves the target.
   */
  lemma PatchMeetsStandard(env: Env, doc: Value, operations: seq<Value>)
    requires AllRepresentable(operations) && DistinctNames(operations) && Regular(env, doc, operations)
    ensures var r := ApplyPatch(env, doc, List(operations));
            && (r.result.Ok? <==> exists docs :: Chain(env, docs, operations) && docs[0] == doc)
            && (forall docs :: Chain(env, docs, operations) && docs[0] == doc ==> r.doc == docs[|docs| - 1])
            && (r.result.Err? ==> r.doc == doc)
  {
    if RunAll(env, doc, operations).Some? {
      var docs := RunIsChain(env, doc, operations);
    }
    forall docs | Chain(env, docs, operations) && docs[0] == doc
      ensures RunAll(env, doc, operations) == Some(docs[|docs| - 1])
    {
      ChainIsRun(env, docs, operations);
    }
  }

  lemma {:induction false} AllRepresentableIff(operations: seq<Value>)
    ensures AllRepresentable(operations) <==> forall i :: 0 <= i < |operations| ==> Representable(operations[i])
  {
    if operations != [] {
      AllRepresentableIff(operations[1..]);
      assert forall i :: 0 < i < |operations| ==> operations[i] == operations[1..][i - 1];
    }
  }

  /** A patch that is not a list, or holds something that is not JSON anywhere in it, is refused whole. */
  lemma NotAPatchFails(env: Env, doc: Value, patch: Value)
    requires !patch.List? || exists i :: 0 <= i < |patch.items| && !Representable(patch.items[i])
    ensures ApplyPatch(env, doc, patch) == Done(doc, Err)
  {
    if patch.List? {
      AllRepresentableIff(patch.items);
    }
  }
}
