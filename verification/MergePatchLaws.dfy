/** Merge patch against RFC 7396: when they agree, and what applying a patch twice does. */
module MergePatchLaws {
  import opened Wrappers
  import opened Pairs
  import opened Values
  import opened Orderings
  import opened Canonical
  import opened JsonPointer
  import opened MergePatch

  // ----- both loops are one fold, with different treatments of present and absent names -----

  type Present = (Value, Value) -> Value
  type Absent = Value -> Value

  predicate Has(t: Entries, k: Value) { Position(BY_NAME, t, k) < |t| }

  function FoldOne(t: Entries, e: (Value, Value), f: Present, g: Absent): Entries {
    var i := Position(BY_NAME, t, e.0);
    if e.1.Unit? then Delete(BY_NAME, t, e.0)
    else if i < |t| then t[i := (t[i].0, f(t[i].1, e.1))]
    else t + [(e.0, g(e.1))]
  }

  function Fold(t: Entries, ps: Entries, f: Present, g: Absent): Entries
    decreases ps
  {
    if ps == [] then t else Fold(FoldOne(t, ps[0], f, g), ps[1..], f, g)
  }

  function MergeF(salt: nat): Present { (v: Value, pv: Value) => Merge(salt, v, pv) }
  function RfcF(salt: nat): Present { (v: Value, pv: Value) => Rfc(salt, Some(v), pv) }
  function RfcG(salt: nat): Absent { (pv: Value) => Rfc(salt, None, pv) }
  function Same(): Absent { (pv: Value) => pv }

  lemma {:induction false} MergeIsFold(salt: nat, t: Entries, ps: Entries)
    requires AllJson(ps)
    ensures MergeAll(salt, t, ps) == Fold(t, ps, MergeF(salt), Same())
    decreases ps
  {
    if ps != [] {
      assert PairJson(ps[0]);
      assert MergeOne(salt, t, ps[0]) == FoldOne(t, ps[0], MergeF(salt), Same());
      MergeIsFold(salt, MergeOne(salt, t, ps[0]), ps[1..]);
    }
  }

  lemma {:induction false} RfcIsFold(salt: nat, t: Entries, ps: Entries)
    ensures RfcAll(salt, t, ps) == Fold(t, ps, RfcF(salt), RfcG(salt))
    decreases ps
  {
    if ps != [] {
      assert RfcOne(salt, t, ps[0]) == FoldOne(t, ps[0], RfcF(salt), RfcG(salt));
      RfcIsFold(salt, RfcOne(salt, t, ps[0]), ps[1..]);
    }
  }

  // ----- the fold in closed form: the target's members in their order, then the new ones in the patch's order -----

  function KeptOne(e: (Value, Value), ps: Entries, f: Present): Entries {
    var j := Position(BY_NAME, ps, e.0);
    if j == |ps| then [e] else if ps[j].1.Unit? then [] else [(e.0, f(e.1, ps[j].1))]
  }

  function Kept(t: Entries, ps: Entries, f: Present): Entries {
    if t == [] then [] else KeptOne(t[0], ps, f) + Kept(t[1..], ps, f)
  }

  function AddedOne(t: Entries, e: (Value, Value), g: Absent): Entries {
    if Has(t, e.0) || e.1.Unit? then [] else [(e.0, g(e.1))]
  }

  function Added(t: Entries, ps: Entries, g: Absent): Entries
    decreases ps
  {
    if ps == [] then [] else AddedOne(t, ps[0], g) + Added(t, ps[1..], g)
  }

  lemma HasIff(t: Entries, k: Value)
    ensures Has(t, k) <==> exists i :: 0 <= i < |t| && t[i].0 == k
  {
  }

  lemma {:induction false} KeptConcat(a: Entries, b: Entries, ps: Entries, f: Present)
    ensures Kept(a + b, ps, f) == Kept(a, ps, f) + Kept(b, ps, f)
  {
    if a == [] {
      assert a + b == b;
      assert [] + Kept(b, ps, f) == Kept(b, ps, f);
    } else {
      KeptConcat(a[1..], b, ps, f);
      assert (a + b)[0] == a[0] && (a + b)[1..] == a[1..] + b;
      Associate(KeptOne(a[0], ps, f), Kept(a[1..], ps, f), Kept(b, ps, f));
    }
  }

  lemma Associate(x: Entries, y: Entries, z: Entries)
    ensures x + (y + z) == (x + y) + z
  {
  }

  lemma {:induction false} KeptNone(t: Entries, f: Present)
    ensures Kept(t, [], f) == t
  {
    if t != [] {
      KeptNone(t[1..], f);
      assert t == [t[0]] + t[1..];
    }
  }

  /** A patch member whose name is not in the target does not affect what is kept. */
  lemma {:induction false} KeptSkip(t: Entries, ps: Entries, f: Present)
    requires ps != [] && !Has(t, ps[0].0)
    ensures Kept(t, ps, f) == Kept(t, ps[1..], f)
  {
    if t != [] {
      HasIff(t, ps[0].0);
      HasIff(t[1..], ps[0].0);
      assert t[0].0 != ps[0].0;
      KeptSkip(t[1..], ps, f);
    }
  }

  lemma {:induction false} AddedAgree(t: Entries, t': Entries, ps: Entries, g: Absent)
    requires forall j :: 0 <= j < |ps| ==> Has(t, ps[j].0) == Has(t', ps[j].0)
    ensures Added(t, ps, g) == Added(t', ps, g)
    decreases ps
  {
    if ps != [] {
      AddedAgree(t, t', ps[1..], g);
    }
  }

  lemma DistinctTail(ps: Entries)
    requires DistinctKeys(BY_NAME, ps) && ps != []
    ensures DistinctKeys(BY_NAME, ps[1..]) && !Has(ps[1..], ps[0].0)
  {
    HasIff(ps[1..], ps[0].0);
  }

  lemma Pieces(t: Entries, i: nat)
    requires i < |t|
    ensures t == t[..i] + [t[i]] + t[i + 1..]
  {
  }

  /** The target split around a name it holds once. */
  lemma SplitAt(t: Entries, k: Value)
    requires DistinctKeys(BY_NAME, t) && Has(t, k)
    ensures var i := Position(BY_NAME, t, k);
            && t == t[..i] + [t[i]] + t[i + 1..] && t[i].0 == k
            && !Has(t[..i], k) && !Has(t[i + 1..], k)
            && DistinctKeys(BY_NAME, t[..i] + t[i + 1..])
  {
    var i := Position(BY_NAME, t, k);
    Pieces(t, i);
    HasIff(t[..i], k);
    HasIff(t[i + 1..], k);
    DistinctAfterRemoval(BY_NAME, t, i);
  }

  lemma HasUpdate(t: Entries, i: nat, v: Value, k: Value)
    requires i < |t|
    ensures Has(t[i := (t[i].0, v)], k) == Has(t, k)
    ensures DistinctKeys(BY_NAME, t) ==> DistinctKeys(BY_NAME, t[i := (t[i].0, v)])
  {
    var t' := t[i := (t[i].0, v)];
    assert forall a :: 0 <= a < |t| ==> t'[a].0 == t[a].0;
  }

  lemma HasAppend(t: Entries, e: (Value, Value), k: Value)
    ensures Has(t + [e], k) == (k == e.0 || Has(t, k))
  {
    var t', p := t + [e], Position(BY_NAME, t + [e], k);
    assert t'[|t|] == e;
    assert p < |t| ==> t[p].0 == k;
    assert Has(t, k) ==> t'[Position(BY_NAME, t, k)].0 == k;
  }

  lemma DistinctAppend(t: Entries, e: (Value, Value))
    requires DistinctKeys(BY_NAME, t) && !Has(t, e.0)
    ensures DistinctKeys(BY_NAME, t + [e])
  {
  }

  lemma HasDelete(t: Entries, j: Value, k: Value)
    requires DistinctKeys(BY_NAME, t)
    ensures Has(Delete(BY_NAME, t, j), k) == (k != j && Has(t, k))
    ensures DistinctKeys(BY_NAME, Delete(BY_NAME, t, j))
  {
    LookupAfterDelete(BY_NAME, t, j, k);
    assert BY_NAME.same(j, k) == (j == k);
    var i := Position(BY_NAME, t, j);
    if i < |t| {
      DistinctAfterRemoval(BY_NAME, t, i);
    }
  }

  lemma FoldOneHas(t: Entries, e: (Value, Value), f: Present, g: Absent, k: Value)
    requires DistinctKeys(BY_NAME, t)
    ensures DistinctKeys(BY_NAME, FoldOne(t, e, f, g))
    ensures Has(FoldOne(t, e, f, g), k) <==> if k == e.0 then !e.1.Unit? else Has(t, k)
  {
    var i := Position(BY_NAME, t, e.0);
    if e.1.Unit? {
      HasDelete(t, e.0, k);
    } else if i < |t| {
      HasUpdate(t, i, f(t[i].1, e.1), k);
    } else {
      HasAppend(t, (e.0, g(e.1)), k);
      DistinctAppend(t, (e.0, g(e.1)));
    }
  }

  lemma {:induction false} FoldClosed(t: Entries, ps: Entries, f: Present, g: Absent)
    requires DistinctKeys(BY_NAME, t) && DistinctKeys(BY_NAME, ps)
    ensures Fold(t, ps, f, g) == Kept(t, ps, f) + Added(t, ps, g)
    decreases ps
  {
    if ps == [] {
      KeptNone(t, f);
    } else {
      var t', r := FoldOne(t, ps[0], f, g), ps[1..];
      DistinctTail(ps);
      FoldOneHas(t, ps[0], f, g, ps[0].0);
      FoldClosed(t', r, f, g);
      FoldStep(t, ps, f, g);
    }
  }

  /** Folding in one member does not change which of the others are new. */
  lemma AddedStep(t: Entries, ps: Entries, f: Present, g: Absent)
    requires DistinctKeys(BY_NAME, t) && DistinctKeys(BY_NAME, ps) && ps != []
    ensures Added(FoldOne(t, ps[0], f, g), ps[1..], g) == Added(t, ps[1..], g)
  {
    var t', r := FoldOne(t, ps[0], f, g), ps[1..];
    DistinctTail(ps);
    HasIff(r, ps[0].0);
    forall j | 0 <= j < |r| ensures Has(t', r[j].0) == Has(t, r[j].0) {
      FoldOneHas(t, ps[0], f, g, r[j].0);
    }
    AddedAgree(t', t, r, g);
  }

  lemma KeptNew(t: Entries, x: (Value, Value), ps: Entries, f: Present)
    requires !Has(ps, x.0)
    ensures Kept(t + [x], ps, f) == Kept(t, ps, f) + [x]
  {
    KeptConcat(t, [x], ps, f);
    assert Kept([x], ps, f) == KeptOne(x, ps, f) + Kept([], ps, f) == [x];
  }

  lemma DeleteAbsent(t: Entries, k: Value)
    requires !Has(t, k)
    ensures Delete(BY_NAME, t, k) == t
  {
  }

  lemma FoldStepNew(t: Entries, ps: Entries, f: Present, g: Absent)
    requires DistinctKeys(BY_NAME, ps) && ps != [] && !Has(t, ps[0].0)
    ensures Kept(FoldOne(t, ps[0], f, g), ps[1..], f) + Added(t, ps[1..], g) == Kept(t, ps, f) + Added(t, ps, g)
  {
    KeptSkip(t, ps, f);
    DistinctTail(ps);
    if ps[0].1.Unit? {
      DeleteAbsent(t, ps[0].0);
      assert Added(t, ps, g) == [] + Added(t, ps[1..], g) == Added(t, ps[1..], g);
    } else {
      var x := (ps[0].0, g(ps[0].1));
      KeptNew(t, x, ps[1..], f);
      assert Added(t, ps, g) == [x] + Added(t, ps[1..], g);
      Associate(Kept(t, ps[1..], f), [x], Added(t, ps[1..], g));
    }
  }

  lemma FoldStepOld(t: Entries, ps: Entries, f: Present, g: Absent)
    requires DistinctKeys(BY_NAME, t) && DistinctKeys(BY_NAME, ps) && ps != [] && Has(t, ps[0].0)
    ensures Kept(FoldOne(t, ps[0], f, g), ps[1..], f) + Added(t, ps[1..], g) == Kept(t, ps, f) + Added(t, ps, g)
  {
    KeptPresent(t, ps, f, g);
    assert Added(t, ps, g) == [] + Added(t, ps[1..], g) == Added(t, ps[1..], g);
  }

  lemma FoldStep(t: Entries, ps: Entries, f: Present, g: Absent)
    requires DistinctKeys(BY_NAME, t) && DistinctKeys(BY_NAME, ps) && ps != []
    ensures var t', r := FoldOne(t, ps[0], f, g), ps[1..];
            Kept(t', r, f) + Added(t', r, g) == Kept(t, ps, f) + Added(t, ps, g)
  {
    AddedStep(t, ps, f, g);
    if Has(t, ps[0].0) {
      FoldStepOld(t, ps, f, g);
    } else {
      FoldStepNew(t, ps, f, g);
    }
  }

  lemma KeptAround(a: Entries, x: (Value, Value), b: Entries, ps: Entries, f: Present)
    ensures Kept(a + [x] + b, ps, f) == Kept(a, ps, f) + KeptOne(x, ps, f) + Kept(b, ps, f)
  {
    KeptConcat(a, [x], ps, f);
    KeptConcat(a + [x], b, ps, f);
    assert Kept([x], ps, f) == KeptOne(x, ps, f);
  }

  /** What is kept, with the first patch member accounted for on its own. */
  lemma KeptSplit(t: Entries, ps: Entries, f: Present)
    requires DistinctKeys(BY_NAME, t) && ps != [] && Has(t, ps[0].0)
    ensures var i := Position(BY_NAME, t, ps[0].0);
            Kept(t, ps, f) == Kept(t[..i], ps[1..], f) + KeptOne(t[i], ps, f) + Kept(t[i + 1..], ps[1..], f)
  {
    var i := Position(BY_NAME, t, ps[0].0);
    SplitAt(t, ps[0].0);
    KeptAround(t[..i], t[i], t[i + 1..], ps, f);
    KeptSkip(t[..i], ps, f);
    KeptSkip(t[i + 1..], ps, f);
  }

  lemma KeptDeleted(t: Entries, ps: Entries, f: Present)
    requires DistinctKeys(BY_NAME, t) && ps != [] && Has(t, ps[0].0) && ps[0].1.Unit?
    ensures Kept(Delete(BY_NAME, t, ps[0].0), ps[1..], f) == Kept(t, ps, f)
  {
    var i := Position(BY_NAME, t, ps[0].0);
    KeptSplit(t, ps, f);
    KeptConcat(t[..i], t[i + 1..], ps[1..], f);
    var left := Kept(t[..i], ps[1..], f);
    assert KeptOne(t[i], ps, f) == [];
    assert left + [] == left;
  }

  lemma KeptOneFirst(e: (Value, Value), ps: Entries, f: Present)
    requires DistinctKeys(BY_NAME, ps) && ps != [] && e.0 == ps[0].0 && !ps[0].1.Unit?
    ensures var y := (e.0, f(e.1, ps[0].1)); KeptOne(e, ps, f) == [y] && KeptOne(y, ps[1..], f) == [y]
  {
    DistinctTail(ps);
  }

  lemma Around(t: Entries, i: nat, y: (Value, Value))
    requires i < |t|
    ensures t[i := y] == t[..i] + [y] + t[i + 1..]
  {
  }

  lemma KeptUpdated(t: Entries, ps: Entries, f: Present)
    requires DistinctKeys(BY_NAME, t) && DistinctKeys(BY_NAME, ps) && ps != [] && Has(t, ps[0].0) && !ps[0].1.Unit?
    ensures var i := Position(BY_NAME, t, ps[0].0);
            Kept(t[i := (t[i].0, f(t[i].1, ps[0].1))], ps[1..], f) == Kept(t, ps, f)
  {
    var i := Position(BY_NAME, t, ps[0].0);
    var y := (t[i].0, f(t[i].1, ps[0].1));
    Around(t, i, y);
    KeptSplit(t, ps, f);
    KeptOneFirst(t[i], ps, f);
    KeptAround(t[..i], y, t[i + 1..], ps[1..], f);
  }

  lemma KeptPresent(t: Entries, ps: Entries, f: Present, g: Absent)
    requires DistinctKeys(BY_NAME, t) && DistinctKeys(BY_NAME, ps) && ps != [] && Has(t, ps[0].0)
    ensures Kept(FoldOne(t, ps[0], f, g), ps[1..], f) == Kept(t, ps, f)
  {
    if ps[0].1.Unit? {
      KeptDeleted(t, ps, f);
    } else {
      KeptUpdated(t, ps, f);
    }
  }

  // ----- merging in closed form -----

  lemma {:induction false} AllJsonAt(m: Entries, i: nat)
    requires AllJson(m) && i < |m|
    ensures m[i].0.Str? && Json(m[i].1)
  {
    if i == 0 {
      assert PairJson(m[0]);
    } else {
      AllJsonAt(m[1..], i - 1);
    }
  }

  lemma {:induction false} AllTidyAt(m: Entries, i: nat)
    requires AllTidy(m) && i < |m|
    ensures Tidy(m[i].1)
  {
    if i == 0 {
      assert PairTidy(m[0]);
    } else {
      AllTidyAt(m[1..], i - 1);
    }
  }

  lemma {:induction false} JsonIsTidy(v: Value)
    requires Json(v)
    ensures Tidy(v)
    decreases Size(v), 0
  {
    if v.Map? {
      AllJsonIsTidy(v.entries);
    }
  }

  lemma {:induction false} AllJsonIsTidy(m: Entries)
    requires AllJson(m)
    ensures AllTidy(m)
    decreases SizePairs(m), 1
  {
    if m != [] {
      AllJsonAt(m, 0);
      JsonIsTidy(m[0].1);
      assert PairTidy(m[0]);
      AllJsonIsTidy(m[1..]);
    }
  }

  lemma MergeClosed(salt: nat, t: Value, p: Value)
    requires Tidy(t) && Json(p) && p.Map?
    ensures Merge(salt, t, p) == Map(if t.Map? then t.seed else salt,
                                     Kept(Members(t), p.entries, MergeF(salt)) + Added(Members(t), p.entries, Same()))
  {
    MergeIsFold(salt, Members(t), p.entries);
    FoldClosed(Members(t), p.entries, MergeF(salt), Same());
  }

  lemma RfcClosed(salt: nat, t: Option<Value>, p: Value)
    requires (t.Some? ==> Tidy(t.value)) && Json(p) && p.Map?
    ensures var m := if t.Some? then Members(t.value) else [];
            Rfc(salt, t, p) == Map(if t.None? then p.seed else if t.value.Map? then t.value.seed else salt,
                                   Kept(m, p.entries, RfcF(salt)) + Added(m, p.entries, RfcG(salt)))
  {
    var m := if t.Some? then Members(t.value) else [];
    RfcIsFold(salt, m, p.entries);
    FoldClosed(m, p.entries, RfcF(salt), RfcG(salt));
  }

  // ----- merging twice is what the standard does once -----

  /** A patch merged into itself is the patch as the standard would place it: its nulls are gone. */
  lemma {:induction false} MergeSelf(salt: nat, p: Value)
    requires Json(p)
    ensures Merge(salt, p, p) == Rfc(salt, None, p)
    decreases Size(p), 0
  {
    if p.Map? {
      JsonIsTidy(p);
      MergeClosed(salt, p, p);
      RfcClosed(salt, None, p);
      SelfKept(salt, p.entries, p.entries);
      AddedToSelf(p.entries, p.entries, Same());
      var kept := Kept(p.entries, p.entries, MergeF(salt));
      assert kept + [] == kept;
      assert [] + Added([], p.entries, RfcG(salt)) == Added([], p.entries, RfcG(salt));
    }
  }

  lemma {:induction false} AddedToSelf(t: Entries, ps: Entries, g: Absent)
    requires forall j :: 0 <= j < |ps| && !ps[j].1.Unit? ==> Has(t, ps[j].0)
    ensures Added(t, ps, g) == []
    decreases ps
  {
    if ps != [] {
      AddedToSelf(t, ps[1..], g);
    }
  }

  lemma {:induction false} SelfKept(salt: nat, qs: Entries, ps: Entries)
    requires AllJson(qs) && DistinctKeys(BY_NAME, ps) && forall i :: 0 <= i < |qs| ==> qs[i] in ps
    ensures Kept(qs, ps, MergeF(salt)) == Added([], qs, RfcG(salt))
    decreases SizePairs(qs), 1
  {
    if qs != [] {
      AllJsonAt(qs, 0);
      var i :| 0 <= i < |ps| && ps[i] == qs[0];
      PositionUnique(BY_NAME, ps, qs[0].0, i);
      MergeSelf(salt, qs[0].1);
      SelfKept(salt, qs[1..], ps);
    }
  }

  /** Merging a patch a second time gives what the standard gives the first time. */
  lemma {:induction false} TwiceIsRfc(salt: nat, t: Value, p: Value)
    requires Tidy(t) && Json(p)
    ensures Merge(salt, Merge(salt, t, p), p) == Rfc(salt, Some(t), p)
    decreases Size(p), 0
  {
    if p.Map? {
      var m, ps, f := Members(t), p.entries, MergeF(salt);
      var once := Kept(m, ps, f) + Added(m, ps, Same());
      MergeClosed(salt, t, p);
      RfcClosed(salt, Some(t), p);
      MergeKeepsNames(m, ps, f, Same());
      MergeIsFold(salt, once, ps);
      FoldClosed(once, ps, f, Same());
      AddedToSelf(once, ps, Same());
      KeptConcat(Kept(m, ps, f), Added(m, ps, Same()), ps, f);
      KeptTwice(salt, m, ps);
      AddedTwice(salt, m, ps, ps);
      assert Kept(once, ps, f) + [] == Kept(once, ps, f);
    }
  }

  lemma {:induction false} FoldHas(t: Entries, ps: Entries, f: Present, g: Absent, k: Value)
    requires DistinctKeys(BY_NAME, t) && DistinctKeys(BY_NAME, ps)
    ensures DistinctKeys(BY_NAME, Fold(t, ps, f, g))
    ensures var j := Position(BY_NAME, ps, k);
            Has(Fold(t, ps, f, g), k) <==> if j < |ps| then !ps[j].1.Unit? else Has(t, k)
    decreases ps
  {
    if ps != [] {
      DistinctTail(ps);
      FoldOneHas(t, ps[0], f, g, k);
      FoldHas(FoldOne(t, ps[0], f, g), ps[1..], f, g, k);
      assert ps[0].0 == k ==> Position(BY_NAME, ps[1..], k) == |ps[1..]|;
    }
  }

  lemma MergeKeepsNames(t: Entries, ps: Entries, f: Present, g: Absent)
    requires DistinctKeys(BY_NAME, t) && DistinctKeys(BY_NAME, ps)
    ensures var once := Kept(t, ps, f) + Added(t, ps, g);
            && DistinctKeys(BY_NAME, once)
            && forall j :: 0 <= j < |ps| && !ps[j].1.Unit? ==> Has(once, ps[j].0)
  {
    FoldClosed(t, ps, f, g);
    FoldHas(t, ps, f, g, Unit);
    forall j | 0 <= j < |ps| && !ps[j].1.Unit? ensures Has(Kept(t, ps, f) + Added(t, ps, g), ps[j].0) {
      PositionUnique(BY_NAME, ps, ps[j].0, j);
      FoldHas(t, ps, f, g, ps[j].0);
    }
  }

  lemma {:induction false} KeptTwice(salt: nat, m: Entries, ps: Entries)
    requires AllTidy(m) && AllJson(ps)
    ensures Kept(Kept(m, ps, MergeF(salt)), ps, MergeF(salt)) == Kept(m, ps, RfcF(salt))
    decreases SizePairs(ps), 2, |m|
  {
    if m != [] {
      var f := MergeF(salt);
      AllTidyAt(m, 0);
      KeptConcat(KeptOne(m[0], ps, f), Kept(m[1..], ps, f), ps, f);
      KeptTwice(salt, m[1..], ps);
      var j := Position(BY_NAME, ps, m[0].0);
      if j < |ps| {
        AllJsonAt(ps, j);
        SizePairsAt(ps, j);
        TwiceIsRfc(salt, m[0].1, ps[j].1);
      }
      KeptSingle(KeptOne(m[0], ps, f), ps, f);
    }
  }

  lemma KeptSingle(s: Entries, ps: Entries, f: Present)
    requires |s| <= 1
    ensures Kept(s, ps, f) == if s == [] then [] else KeptOne(s[0], ps, f)
  {
  }

  lemma OneAddedTwice(salt: nat, m: Entries, e: (Value, Value), ps: Entries)
    requires Json(e.1) && DistinctKeys(BY_NAME, ps) && e in ps
    ensures Kept(AddedOne(m, e, Same()), ps, MergeF(salt)) == AddedOne(m, e, RfcG(salt))
  {
    var i :| 0 <= i < |ps| && ps[i] == e;
    PositionUnique(BY_NAME, ps, e.0, i);
    MergeSelf(salt, e.1);
    KeptSingle(AddedOne(m, e, Same()), ps, MergeF(salt));
  }

  lemma {:induction false} AddedTwice(salt: nat, m: Entries, qs: Entries, ps: Entries)
    requires AllJson(qs) && DistinctKeys(BY_NAME, ps) && forall i :: 0 <= i < |qs| ==> qs[i] in ps
    ensures Kept(Added(m, qs, Same()), ps, MergeF(salt)) == Added(m, qs, RfcG(salt))
    decreases SizePairs(ps), 1, |qs|
  {
    if qs != [] {
      AllJsonAt(qs, 0);
      KeptConcat(AddedOne(m, qs[0], Same()), Added(m, qs[1..], Same()), ps, MergeF(salt));
      OneAddedTwice(salt, m, qs[0], ps);
      AddedTwice(salt, m, qs[1..], ps);
    }
  }

  // ----- a clean patch is merged as the standard says -----

  lemma {:induction false} PlacedAsIs(salt: nat, p: Value)
    requires Json(p) && NullFree(p)
    ensures Rfc(salt, None, p) == p
    decreases Size(p), 0
  {
    if p.Map? {
      RfcClosed(salt, None, p);
      PlacedAllAsIs(salt, p.entries);
      assert [] + p.entries == p.entries;
    }
  }

  lemma {:induction false} PlacedAllAsIs(salt: nat, qs: Entries)
    requires AllJson(qs) && AllNullFree(qs)
    ensures Added([], qs, RfcG(salt)) == qs
    decreases SizePairs(qs), 1
  {
    if qs != [] {
      assert PairNullFree(qs[0]);
      AllJsonAt(qs, 0);
      PlacedAsIs(salt, qs[0].1);
      PlacedAllAsIs(salt, qs[1..]);
      assert qs == [qs[0]] + qs[1..];
    }
  }

  /** The condition, seen from a member of the target. */
  predicate KeepsClean(e: (Value, Value), ps: Entries) {
    var j := Position(BY_NAME, ps, e.0);
    j == |ps| || ps[j].1.Unit? || Clean(e.1, ps[j].1)
  }

  /** The condition, seen from a member of the patch that is new to the target. */
  predicate AddsClean(t: Entries, e: (Value, Value)) {
    Has(t, e.0) || e.1.Unit? || NullFree(e.1)
  }

  lemma {:induction false} AllCleanIff(t: Entries, ps: Entries)
    ensures AllClean(t, ps) <==> forall j :: 0 <= j < |ps| ==> OneClean(t, ps[j])
    decreases ps
  {
    if ps != [] {
      AllCleanIff(t, ps[1..]);
      assert forall j :: 1 <= j < |ps| ==> ps[j] == ps[1..][j - 1];
    }
  }

  lemma CleanFromBothSides(t: Entries, ps: Entries)
    requires DistinctKeys(BY_NAME, t) && DistinctKeys(BY_NAME, ps)
    ensures AllClean(t, ps) <==>
            (forall i :: 0 <= i < |t| ==> KeepsClean(t[i], ps)) && (forall j :: 0 <= j < |ps| ==> AddsClean(t, ps[j]))
  {
    AllCleanIff(t, ps);
    forall i | 0 <= i < |t| && Has(ps, t[i].0)
      ensures KeepsClean(t[i], ps) == OneClean(t, ps[Position(BY_NAME, ps, t[i].0)])
    {
      PositionUnique(BY_NAME, t, t[i].0, i);
    }
    forall j | 0 <= j < |ps| && Has(t, ps[j].0)
      ensures OneClean(t, ps[j]) == KeepsClean(t[Position(BY_NAME, t, ps[j].0)], ps)
    {
      PositionUnique(BY_NAME, ps, ps[j].0, j);
    }
  }

  lemma {:induction false} CleanAgrees(salt: nat, t: Value, p: Value)
    requires Tidy(t) && Json(p) && Clean(t, p)
    ensures Merge(salt, t, p) == Rfc(salt, Some(t), p)
    decreases Size(p), 0
  {
    if p.Map? {
      MergeClosed(salt, t, p);
      RfcClosed(salt, Some(t), p);
      CleanFromBothSides(Members(t), p.entries);
      KeptAgrees(salt, Members(t), p.entries);
      AddedAgrees(salt, Members(t), p.entries);
    }
  }

  lemma {:induction false} KeptAgrees(salt: nat, m: Entries, ps: Entries)
    requires AllTidy(m) && AllJson(ps) && forall i :: 0 <= i < |m| ==> KeepsClean(m[i], ps)
    ensures Kept(m, ps, MergeF(salt)) == Kept(m, ps, RfcF(salt))
    decreases SizePairs(ps), 1, |m|
  {
    if m != [] {
      AllTidyAt(m, 0);
      KeptAgrees(salt, m[1..], ps);
      var j := Position(BY_NAME, ps, m[0].0);
      if j < |ps| && !ps[j].1.Unit? {
        AllJsonAt(ps, j);
        SizePairsAt(ps, j);
        CleanAgrees(salt, m[0].1, ps[j].1);
      }
    }
  }

  lemma {:induction false} AddedAgrees(salt: nat, m: Entries, qs: Entries)
    requires AllJson(qs) && forall j :: 0 <= j < |qs| ==> AddsClean(m, qs[j])
    ensures Added(m, qs, Same()) == Added(m, qs, RfcG(salt))
    decreases qs
  {
    if qs != [] {
      AllJsonAt(qs, 0);
      AddedAgrees(salt, m, qs[1..]);
      if !Has(m, qs[0].0) && !qs[0].1.Unit? {
        PlacedAsIs(salt, qs[0].1);
      }
    }
  }

  // ----- an unclean one leaves more nulls than the standard, in whatever order members are compared -----

  /** The null members reachable through objects. */
  function Nulls(v: Value): nat {
    if v.Map? then NullSum(v.entries) else 0
  }

  function NullSum(m: Entries): nat {
    if m == [] then 0 else NullOne(m[0]) + NullSum(m[1..])
  }

  function NullOne(e: (Value, Value)): nat {
    match e case (_, v) => if v.Unit? then 1 else Nulls(v)
  }

  lemma {:induction false} NullSumConcat(a: Entries, b: Entries)
    ensures NullSum(a + b) == NullSum(a) + NullSum(b)
  {
    if a == [] {
      assert a + b == b;
    } else {
      NullSumConcat(a[1..], b);
      assert (a + b)[0] == a[0] && (a + b)[1..] == a[1..] + b;
    }
  }

  lemma {:induction false} NullsCanon(v: Value)
    ensures Nulls(Canon(v)) == Nulls(v)
  {
    if v.Map? {
      NullSumCanon(v.entries);
    }
  }

  lemma {:induction false} NullSumCanon(m: Entries)
    ensures NullSum(SortLex(CanonPairs(m))) == NullSum(m)
  {
    if m != [] {
      NullOneCanon(m[0]);
      NullSumCanon(m[1..]);
      NullSumInsert(CanonPair(m[0]), SortLex(CanonPairs(m[1..])));
    }
  }

  lemma {:induction false} NullOneCanon(e: (Value, Value))
    ensures NullOne(CanonPair(e)) == NullOne(e)
  {
    match e case (_, v) => NullsCanon(v);
  }

  lemma {:induction false} NullSumInsert(e: (Value, Value), s: Entries)
    ensures NullSum(InsertLex(e, s)) == NullOne(e) + NullSum(s)
  {
    if s != [] && Lex(e.0, s[0].0) == Greater {
      NullSumInsert(e, s[1..]);
    }
  }

  lemma {:induction false} NullFreeIff(v: Value)
    ensures NullFree(v) <==> Nulls(v) == 0
  {
    if v.Map? {
      AllNullFreeIff(v.entries);
    }
  }

  lemma {:induction false} AllNullFreeIff(m: Entries)
    ensures AllNullFree(m) <==> NullSum(m) == 0
  {
    if m != [] {
      PairNullFreeIff(m[0]);
      AllNullFreeIff(m[1..]);
    }
  }

  lemma {:induction false} PairNullFreeIff(e: (Value, Value))
    ensures PairNullFree(e) <==> NullOne(e) == 0
  {
    match e case (_, v) => NullFreeIff(v);
  }

  lemma {:induction false} RfcStrips(salt: nat, p: Value)
    requires Json(p) && !p.Unit?
    ensures Nulls(Rfc(salt, None, p)) == 0 && !Rfc(salt, None, p).Unit?
    decreases Size(p), 0
  {
    if p.Map? {
      RfcClosed(salt, None, p);
      AddedStrips(salt, [], p.entries);
      assert [] + Added([], p.entries, RfcG(salt)) == Added([], p.entries, RfcG(salt));
    }
  }

  lemma {:induction false} AddedStrips(salt: nat, m: Entries, qs: Entries)
    requires AllJson(qs)
    ensures NullSum(Added(m, qs, RfcG(salt))) == 0
    decreases SizePairs(qs), 1
  {
    if qs != [] {
      AllJsonAt(qs, 0);
      AddedStrips(salt, m, qs[1..]);
      NullSumConcat(AddedOne(m, qs[0], RfcG(salt)), Added(m, qs[1..], RfcG(salt)));
      if !qs[0].1.Unit? {
        RfcStrips(salt, qs[0].1);
        assert NullSum([(qs[0].0, Rfc(salt, None, qs[0].1))]) == NullOne((qs[0].0, Rfc(salt, None, qs[0].1)));
      }
    }
  }

  lemma {:induction false} AddedNulls(m: Entries, qs: Entries)
    ensures NullSum(Added(m, qs, Same())) == 0 <==> forall j :: 0 <= j < |qs| ==> AddsClean(m, qs[j])
    decreases qs
  {
    if qs != [] {
      AddedNulls(m, qs[1..]);
      NullSumConcat(AddedOne(m, qs[0], Same()), Added(m, qs[1..], Same()));
      NullFreeIff(qs[0].1);
      assert NullSum([qs[0]]) == NullOne(qs[0]);
      assert forall j :: 1 <= j < |qs| ==> qs[j] == qs[1..][j - 1];
      assert AddsClean(m, qs[0]) <==> NullSum(AddedOne(m, qs[0], Same())) == 0;
    }
  }

  /** The code leaves at least the standard's nulls, and just as many exactly when the patch is clean. */
  lemma {:induction false} NullsCompare(salt: nat, t: Value, p: Value)
    requires Tidy(t) && Json(p)
    ensures Nulls(Merge(salt, t, p)) >= Nulls(Rfc(salt, Some(t), p))
    ensures Nulls(Merge(salt, t, p)) == Nulls(Rfc(salt, Some(t), p)) <==> Clean(t, p)
    decreases Size(p), 0
  {
    if p.Map? {
      var m, ps := Members(t), p.entries;
      MergeClosed(salt, t, p);
      RfcClosed(salt, Some(t), p);
      NullSumConcat(Kept(m, ps, MergeF(salt)), Added(m, ps, Same()));
      NullSumConcat(Kept(m, ps, RfcF(salt)), Added(m, ps, RfcG(salt)));
      KeptCompare(salt, m, ps);
      AddedNulls(m, ps);
      AddedStrips(salt, m, ps);
      CleanFromBothSides(m, ps);
    }
  }

  lemma {:induction false} KeptCompare(salt: nat, m: Entries, ps: Entries)
    requires AllTidy(m) && AllJson(ps)
    ensures NullSum(Kept(m, ps, MergeF(salt))) >= NullSum(Kept(m, ps, RfcF(salt)))
    ensures NullSum(Kept(m, ps, MergeF(salt))) == NullSum(Kept(m, ps, RfcF(salt))) <==>
            forall i :: 0 <= i < |m| ==> KeepsClean(m[i], ps)
    decreases SizePairs(ps), 1, |m|
  {
    if m != [] {
      KeptCompare(salt, m[1..], ps);
      assert forall i :: 1 <= i < |m| ==> m[i] == m[1..][i - 1];
      NullSumConcat(KeptOne(m[0], ps, MergeF(salt)), Kept(m[1..], ps, MergeF(salt)));
      NullSumConcat(KeptOne(m[0], ps, RfcF(salt)), Kept(m[1..], ps, RfcF(salt)));
      KeptOneCompare(salt, m[0], ps);
    }
  }

  lemma {:induction false} KeptOneCompare(salt: nat, e: (Value, Value), ps: Entries)
    requires PairTidy(e) && AllJson(ps)
    ensures NullSum(KeptOne(e, ps, MergeF(salt))) >= NullSum(KeptOne(e, ps, RfcF(salt)))
    ensures NullSum(KeptOne(e, ps, MergeF(salt))) == NullSum(KeptOne(e, ps, RfcF(salt))) <==> KeepsClean(e, ps)
    decreases SizePairs(ps), 0, 0
  {
    var j := Position(BY_NAME, ps, e.0);
    if j < |ps| && !ps[j].1.Unit? {
      AllJsonAt(ps, j);
      SizePairsAt(ps, j);
      NullsCompare(salt, e.1, ps[j].1);
      var x, y := (e.0, Merge(salt, e.1, ps[j].1)), (e.0, Rfc(salt, Some(e.1), ps[j].1));
      assert !x.1.Unit? && !y.1.Unit?;
      assert NullSum([x]) == NullOne(x) && NullSum([y]) == NullOne(y);
    }
  }

  // ----- the theorems -----

  /**
   Up to the order of members, merging equals the standard exactly when every
   patch object placed under an absent name is null-free; then it equals it in
   order too.
   */
  lemma AgreesExactlyWhenClean(salt: nat, t: Value, p: Value)
    requires Tidy(t) && Json(p)
    ensures Canon(Merge(salt, t, p)) == Canon(Rfc(salt, Some(t), p)) <==> Clean(t, p)
    ensures Clean(t, p) ==> Merge(salt, t, p) == Rfc(salt, Some(t), p)
  {
    if Clean(t, p) {
      CleanAgrees(salt, t, p);
    } else {
      NullsCompare(salt, t, p);
      NullsCanon(Merge(salt, t, p));
      NullsCanon(Rfc(salt, Some(t), p));
    }
  }

  /** Applying a patch twice is applying it once under the same condition and under no other. */
  lemma IdempotentExactlyWhenClean(salt: nat, t: Value, p: Value)
    requires Tidy(t) && Json(p)
    ensures Merge(salt, Merge(salt, t, p), p) == Merge(salt, t, p) <==> Clean(t, p)
  {
    TwiceIsRfc(salt, t, p);
    AgreesExactlyWhenClean(salt, t, p);
  }

  /** The smallest unclean patch: a null inside an object placed under a new name. */
  lemma UncleanExample()
    ensures var t, p := Map(0, []), Map(0, [(Str("a"), Map(0, [(Str("b"), Unit)]))]);
            Tidy(t) && Json(p) && !Clean(t, p) && Merge(0, t, p) != Rfc(0, Some(t), p)
  {
    var inner := Map(0, [(Str("b"), Unit)]);
    var t, p := Map(0, []), Map(0, [(Str("a"), inner)]);
    assert PairJson(inner.entries[0]) && AllJson(inner.entries) && Json(inner);
    assert PairJson(p.entries[0]) && AllJson(p.entries);
    assert !PairNullFree(inner.entries[0]) && !NullFree(inner);
    assert !OneClean([], p.entries[0]);
    NullsCompare(0, t, p);
  }
}
