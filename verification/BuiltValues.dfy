/**
 Maps and sets that runs of the ordered map build with the runtime's own equality
 of keys are well formed, so the laws of values hold of them, nested as they may be.
 */
module BuiltValues {
  import opened Values
  import opened Pairs
  import opened OrderedMaps
  import opened ValueContract

  type Entries = seq<(Value, Value)>

  /** How the runtime finds a key: by its own equality, which is an equivalence on well-formed values only. */
  function OwnKeying(env: Env, seed: nat): Keying<Value> {
    Keying((a: Value, b: Value) => Eq(env, a, b), (v: Value) => env.sip(seed, Feed(env, v)))
  }

  /** The keys and values an operation names are well formed. */
  ghost predicate Names(env: Env, op: Op<Value, Value>) {
    match op
    case DoInsert(k, v) => WellFormed(env, k) && WellFormed(env, v)
    case DoRemove(k) => WellFormed(env, k)
    case DoGet(k) => WellFormed(env, k)
    case DoGetMut(k, v) => WellFormed(env, k) && WellFormed(env, v)
    case DoClear => true
  }

  ghost predicate Each(env: Env, m: Entries) {
    forall i :: 0 <= i < |m| ==> WellFormed(env, m[i].0) && WellFormed(env, m[i].1)
  }

  lemma {:induction false} EachIsPairs(env: Env, m: Entries)
    requires Each(env, m)
    ensures PairsWellFormed(env, m)
  {
    if m != [] {
      assert PairWellFormed(env, m[0]);
      EachIsPairs(env, m[1..]);
    }
  }

  lemma {:induction false} OwnPosition(env: Env, seed: nat, m: Entries, k: Value)
    requires Each(env, m) && WellFormed(env, k)
    ensures Position(OwnKeying(env, seed), m, k) == Position(KeyingOf(env, seed), m, k)
  {
    if m != [] {
      EqCanon(env, m[0].0, k);
      OwnPosition(env, seed, m[1..], k);
    }
  }

  lemma OwnStep(env: Env, seed: nat, m: Entries, op: Op<Value, Value>)
    requires Each(env, m) && Names(env, op)
    ensures Step(OwnKeying(env, seed), m, op) == Step(KeyingOf(env, seed), m, op)
    ensures Each(env, Step(OwnKeying(env, seed), m, op))
  {
    if !op.DoClear? {
      OwnPosition(env, seed, m, op.key);
    }
  }

  /** A run by the runtime's own equality is the run by equality of canonical forms, and keeps every part well formed. */
  lemma {:induction false} OwnRun(env: Env, seed: nat, ops: seq<Op<Value, Value>>)
    requires forall i :: 0 <= i < |ops| ==> Names(env, ops[i])
    ensures Replay(OwnKeying(env, seed), ops) == Replay(KeyingOf(env, seed), ops)
    ensures Each(env, Replay(OwnKeying(env, seed), ops))
  {
    if ops != [] {
      var earlier := ops[..|ops| - 1];
      OwnRun(env, seed, earlier);
      OwnStep(env, seed, Replay(OwnKeying(env, seed), earlier), ops[|ops| - 1]);
    }
  }

  lemma DistinctByOwn(env: Env, seed: nat, m: Entries)
    requires Each(env, m) && DistinctKeys(KeyingOf(env, seed), m)
    ensures DistinctEntries(env, m)
  {
    forall i, j | 0 <= i < j < |m| ensures !Eq(env, m[i].0, m[j].0) {
      EqCanon(env, m[i].0, m[j].0);
    }
  }

  /** Whatever run of the map's operations over well-formed keys and values it is, the map it leaves is well formed. */
  lemma RunsBuildWellFormed(env: Env, seed: nat, ops: seq<Op<Value, Value>>)
    requires forall i :: 0 <= i < |ops| ==> Names(env, ops[i])
    ensures WellFormed(env, Map(seed, Replay(OwnKeying(env, seed), ops)))
  {
    OwnRun(env, seed, ops);
    ValuesAreLawfulKeys(env, seed);
    ReplayDistinct(KeyingOf(env, seed), ops);
    var m := Replay(OwnKeying(env, seed), ops);
    EachIsPairs(env, m);
    DistinctByOwn(env, seed, m);
  }

  /** An operation of a set: the values are all `Unit`. */
  predicate OfSet(op: Op<Value, Value>) { op.DoInsert? || op.DoGetMut? ==> op.value == Unit }

  predicate Units(m: Entries) { forall i :: 0 <= i < |m| ==> m[i].1 == Unit }

  lemma SetStep(q: Keying<Value>, m: Entries, op: Op<Value, Value>)
    requires Units(m) && OfSet(op)
    ensures Units(Step(q, m, op))
  {
  }

  lemma {:induction false} SetsHoldUnits(q: Keying<Value>, ops: seq<Op<Value, Value>>)
    requires forall i :: 0 <= i < |ops| ==> OfSet(ops[i])
    ensures Units(Replay(q, ops))
  {
    if ops != [] {
      var earlier := ops[..|ops| - 1];
      SetsHoldUnits(q, earlier);
      SetStep(q, Replay(q, earlier), ops[|ops| - 1]);
    }
  }

  /** The same for the sets, which are maps to `Unit`. */
  lemma RunsBuildWellFormedSets(env: Env, seed: nat, ops: seq<Op<Value, Value>>)
    requires forall i :: 0 <= i < |ops| ==> Names(env, ops[i]) && OfSet(ops[i])
    ensures WellFormed(env, Set(seed, Replay(OwnKeying(env, seed), ops)))
  {
    RunsBuildWellFormed(env, seed, ops);
    SetsHoldUnits(OwnKeying(env, seed), ops);
  }
}
