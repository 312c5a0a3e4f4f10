/**
 JSON Merge Patch, src/json.rs, against the pseudocode in section 2 of RFC 7396.
 The code copies a patch value placed under an absent name as it is, where the
 standard would strip its null members.
 */
module MergePatch {
  import opened Wrappers
  import opened Pairs
  import opened Values
  import opened JsonPointer

  // ----- the code -----

  function Merge(salt: nat, target: Value, patch: Value): Value
    decreases patch
  {
    match patch
    case Map(_, ps) =>
      if target.Map? then Map(target.seed, MergeAll(salt, target.entries, ps))
      else Map(salt, MergeAll(salt, [], ps))
    case _ => patch
  }

  function MergeAll(salt: nat, t: Entries, ps: Entries): Entries
    decreases ps
  {
    if ps == [] then t else MergeAll(salt, MergeOne(salt, t, ps[0]), ps[1..])
  }

  function MergeOne(salt: nat, t: Entries, e: (Value, Value)): Entries
    decreases e
  {
    match e case (k, pv) =>
      if !k.Str? then t
      else if pv.Unit? then Delete(BY_NAME, t, k)
      else
        var i := Position(BY_NAME, t, k);
        if i < |t| then t[i := (t[i].0, Merge(salt, t[i].1, pv))] else t + [(k, pv)]
  }

  /** The in-place loop over the patch's members; each present member is merged by a recursive call. */
  method ApplyMergePatch(salt: nat, target: Value, patch: Value) returns (merged: Value)
    ensures merged == Merge(salt, target, patch)
    decreases Size(patch)
  {
    if !patch.Map? {
      return patch;
    }
    var base := if target.Map? then target else Map(salt, []);
    var entries, ps := base.entries, patch.entries;
    assert ps[0..] == ps;
    for i := 0 to |ps|
      invariant MergeAll(salt, entries, ps[i..]) == MergeAll(salt, base.entries, ps)
    {
      assert ps[i..][1..] == ps[i + 1..];
      var k, pv := ps[i].0, ps[i].1;
      assert ps[i] == (k, pv);
      if k.Str? {
        if pv.Unit? {
          entries := Delete(BY_NAME, entries, k);
        } else {
          var at := Position(BY_NAME, entries, k);
          if at < |entries| {
            SizePairsAt(ps, i);
            var inner := ApplyMergePatch(salt, entries[at].1, pv);
            entries := entries[at := (entries[at].0, inner)];
          } else {
            entries := entries + [(k, pv)];
          }
        }
      }
    }
    merged := Map(base.seed, entries);
  }

  // ----- the standard -----

  /** The pseudocode of RFC 7396; `None` is an undefined target. The seed of a new object is immaterial. */
  function Rfc(salt: nat, target: Option<Value>, patch: Value): Value
    decreases patch
  {
    match patch
    case Map(seed, ps) =>
      (match target
       case Some(Map(s, t)) => Map(s, RfcAll(salt, t, ps))
       case Some(_) => Map(salt, RfcAll(salt, [], ps))
       case None => Map(seed, RfcAll(salt, [], ps)))
    case _ => patch
  }

  function RfcAll(salt: nat, t: Entries, ps: Entries): Entries
    decreases ps
  {
    if ps == [] then t else RfcAll(salt, RfcOne(salt, t, ps[0]), ps[1..])
  }

  function RfcOne(salt: nat, t: Entries, e: (Value, Value)): Entries
    decreases e
  {
    match e case (k, pv) =>
      if pv.Unit? then Delete(BY_NAME, t, k)
      else
        var old' := Lookup(BY_NAME, t, k);
        Put(BY_NAME, t, k, Rfc(salt, old', pv))
  }

  // ----- documents and the condition -----

  /** A document as the runtime's maps guarantee it: no object reachable through objects repeats a key. */
  ghost predicate Tidy(v: Value) {
    v.Map? ==> DistinctKeys(BY_NAME, v.entries) && AllTidy(v.entries)
  }

  ghost predicate AllTidy(m: Entries) {
    m == [] || (PairTidy(m[0]) && AllTidy(m[1..]))
  }

  ghost predicate PairTidy(e: (Value, Value)) {
    match e case (_, v) => Tidy(v)
  }

  /** A patch, which must convert to JSON: its names are strings besides. */
  ghost predicate Json(v: Value) {
    v.Map? ==> DistinctKeys(BY_NAME, v.entries) && AllJson(v.entries)
  }

  ghost predicate AllJson(m: Entries) {
    m == [] || (PairJson(m[0]) && AllJson(m[1..]))
  }

  ghost predicate PairJson(e: (Value, Value)) {
    match e case (k, v) => k.Str? && Json(v)
  }

  /** No null member is reachable through objects. */
  predicate NullFree(v: Value) {
    v.Map? ==> AllNullFree(v.entries)
  }

  predicate AllNullFree(m: Entries) {
    m == [] || (PairNullFree(m[0]) && AllNullFree(m[1..]))
  }

  predicate PairNullFree(e: (Value, Value)) {
    match e case (_, v) => !v.Unit? && NullFree(v)
  }

  function Members(v: Value): Entries { if v.Map? then v.entries else [] }

  /** Every patch object placed under a name absent from the target is null-free. */
  predicate Clean(target: Value, patch: Value)
    decreases patch
  {
    patch.Map? ==> AllClean(Members(target), patch.entries)
  }

  predicate AllClean(t: Entries, ps: Entries)
    decreases ps
  {
    ps == [] || (OneClean(t, ps[0]) && AllClean(t, ps[1..]))
  }

  predicate OneClean(t: Entries, e: (Value, Value))
    decreases e
  {
    match e case (k, pv) =>
      var i := Position(BY_NAME, t, k);
      pv.Unit? || if i < |t| then Clean(t[i].1, pv) else NullFree(pv)
  }
}
