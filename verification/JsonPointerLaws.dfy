/** The laws of pointer operations, over every document and every resolved path. */
module JsonPointerLaws {
  import opened Wrappers
  import opened Pairs
  import opened Values
  import opened JsonPointer

  // ----- one container -----

  /** Positions depend on the stored keys alone. */
  lemma {:induction false} SlotByKeys(s: Entries, t: Entries, name: string)
    requires |s| == |t| && forall i :: 0 <= i < |s| ==> s[i].0 == t[i].0
    ensures Slot(s, name) == Slot(t, name)
  {
  }

  lemma {:induction false} SlotAfterPut(s: Entries, name: string, x: Value, other: string)
    ensures var t := Put(BY_NAME, s, Str(name), x);
            && (other == name ==> Slot(t, name) == Slot(s, name) < |t|)
            && (other != name ==> if Slot(s, other) < |s| then Slot(t, other) == Slot(s, other) else Slot(t, other) == |t|)
  {
    var t := Put(BY_NAME, s, Str(name), x);
    assert forall i :: 0 <= i < |s| ==> t[i].0 == s[i].0;
    assert t[Slot(s, name)].0 == Str(name);
  }

  lemma ChildOfWith(v: Value, step: Step, x: Value, other: Step)
    requires Child(v, step).Some?
    ensures Child(WithChild(v, step, x), other) == if other == step then Some(x) else Child(v, other)
  {
    if v.Map? && other.Key? {
      SlotByKeys(v.entries, WithChild(v, step, x).entries, other.name);
    }
  }

  /** An assignment changes its own child and no other. */
  lemma ChildOfAssign(v: Value, step: Step, x: Value, other: Step)
    requires EditChild(v, Assign, step, x).Some?
    ensures Child(EditChild(v, Assign, step, x).value, other) == if other == step then Some(x) else Child(v, other)
  {
    if v.Map? && other.Key? {
      SlotAfterPut(v.entries, step.name, x, other.name);
    }
  }

  /** Where the child `other` moves when `step` is inserted: up by one past an insertion in an array. */
  function ShiftStep(v: Value, step: Step, other: Step): Step {
    if v.List? && step.Index? && other.Index? && other.at >= step.at then Index(other.at + 1) else other
  }

  lemma ChildOfInsert(v: Value, step: Step, x: Value, other: Step)
    requires EditChild(v, Insert, step, x).Some?
    ensures Child(EditChild(v, Insert, step, x).value, step) == Some(x)
    ensures (v.Map? ==> other != step) ==>
              Child(EditChild(v, Insert, step, x).value, ShiftStep(v, step, other)) == Child(v, other)
  {
    if v.Map? {
      SlotAfterPut(v.entries, step.name, x, step.name);
      SlotAfterPut(v.entries, step.name, x, if other.Key? then other.name else step.name);
    }
  }

  lemma ChildOfErase(v: Value, step: Step, x: Value, other: Step)
    requires EditChild(v, Erase, step, x).Some?
    requires v.Map? ==> other != step
    ensures Child(EditChild(v, Erase, step, x).value, other) == Child(v, ShiftStep(v, step, other))
  {
    if v.Map? && other.Key? {
      SlotAfterDelete(v.entries, step.name, other.name);
    }
  }

  lemma SlotAfterDelete(s: Entries, name: string, other: string)
    requires name != other
    ensures var t, i, j := Delete(BY_NAME, s, Str(name)), Slot(s, name), Slot(s, other);
            if j == |s| then Slot(t, other) == |t| else Slot(t, other) == if i < |s| && i < j then j - 1 else j
  {
    var t, i, j := Delete(BY_NAME, s, Str(name)), Slot(s, name), Slot(s, other);
    if i < |s| {
      assert forall a :: 0 <= a < |t| ==> t[a] == s[if a < i then a else a + 1];
      var r := Slot(t, other);
      assert r < |t| ==> s[if r < i then r else r + 1].0 == Str(other);
      if j < |s| {
        assert t[if j < i then j else j - 1].0 == Str(other);
      }
    }
  }

  lemma PutThenDelete(s: Entries, name: string, x: Value)
    ensures var t := Put(BY_NAME, s, Str(name), x);
            Slot(t, name) < |t| && (Delete(BY_NAME, t, Str(name)) == s <==> Slot(s, name) == |s|)
  {
    SlotAfterPut(s, name, x, name);
    var t, i := Put(BY_NAME, s, Str(name), x), Slot(s, name);
    if i == |s| {
      assert t[..i] + t[i + 1..] == s;
    } else {
      assert |Delete(BY_NAME, t, Str(name))| == |s| - 1;
    }
  }

  lemma InsertThenEraseMember(v: Value, name: string, x: Value, y: Value)
    requires v.Map?
    ensures var v' := Map(v.seed, Put(BY_NAME, v.entries, Str(name), x));
            EditChild(v', Erase, Key(name), y) == Some(v) <==> Slot(v.entries, name) == |v.entries|
  {
    PutThenDelete(v.entries, name, x);
  }

  lemma InsertThenEraseItem(items: seq<Value>, at: nat, x: Value, y: Value)
    requires at <= |items|
    ensures EditChild(List(items[..at] + [x] + items[at..]), Erase, Index(at), y) == Some(List(items))
  {
    var items' := items[..at] + [x] + items[at..];
    assert items'[..at] + items'[at + 1..] == items;
  }

  /** Inserting where there was nothing and erasing it again gives back the container, order included. */
  lemma InsertThenErase(v: Value, step: Step, x: Value, y: Value)
    requires EditChild(v, Insert, step, x).Some?
    ensures var v' := EditChild(v, Insert, step, x).value;
            EditChild(v', Erase, step, y) == Some(v) <==> (v.List? || Child(v, step).None?)
  {
    if v.Map? {
      InsertThenEraseMember(v, step.name, x, y);
    } else {
      InsertThenEraseItem(v.items, step.at, x, y);
    }
  }

  /** In an array the other order is an inverse too. */
  lemma EraseThenInsert(v: Value, step: Step, y: Value)
    requires v.List? && EditChild(v, Erase, step, y).Some?
    ensures Child(v, step).Some?
    ensures EditChild(EditChild(v, Erase, step, y).value, Insert, step, Child(v, step).value) == Some(v)
  {
    var v' := EditChild(v, Erase, step, y).value;
    assert v'.items[..step.at] + [v.items[step.at]] + v'.items[step.at..] == v.items;
  }

  // ----- whole documents -----

  predicate IsPrefix(p: Path, q: Path) { |p| <= |q| && q[..|p|] == p }

  lemma PrefixTail(p: Path, q: Path)
    requires p != [] && q != []
    ensures IsPrefix(p, q) <==> p[0] == q[0] && IsPrefix(p[1..], q[1..])
  {
    if |p| <= |q| {
      assert q[..|p|] == [q[0]] + q[1..][..|p| - 1];
      assert p == [p[0]] + p[1..];
      if q[..|p|] == p {
        assert q[..|p|][1..] == p[1..];
      }
    }
  }

  /** A get at the place of a successful set returns the new value. */
  lemma {:induction false} GetAfterSet(v: Value, p: Path, x: Value)
    requires SetAt(v, p, x).Some?
    ensures GetAt(SetAt(v, p, x).value, p) == Some(x)
  {
    if |p| == 1 {
      ChildOfAssign(v, p[0], x, p[0]);
    } else if |p| > 1 {
      var c := Child(v, p[0]).value;
      GetAfterSet(c, p[1..], x);
      ChildOfWith(v, p[0], SetAt(c, p[1..], x).value, p[0]);
    }
  }

  lemma {:induction false} GetAfterAdd(v: Value, p: Path, x: Value)
    requires AddAt(v, p, x).Some?
    ensures GetAt(AddAt(v, p, x).value, p) == Some(x)
  {
    if |p| == 1 {
      ChildOfInsert(v, p[0], x, p[0]);
    } else if |p| > 1 {
      var c := Child(v, p[0]).value;
      GetAfterAdd(c, p[1..], x);
      ChildOfWith(v, p[0], AddAt(c, p[1..], x).value, p[0]);
    }
  }

  /** A set leaves every location alone that is neither above nor below it. */
  lemma {:induction false} SetFrame(v: Value, p: Path, x: Value, q: Path)
    requires SetAt(v, p, x).Some?
    requires !IsPrefix(p, q) && !IsPrefix(q, p)
    ensures GetAt(SetAt(v, p, x).value, q) == GetAt(v, q)
  {
    PrefixTail(p, q);
    PrefixTail(q, p);
    if |p| == 1 {
      ChildOfAssign(v, p[0], x, q[0]);
    } else {
      var c := Child(v, p[0]).value;
      ChildOfWith(v, p[0], SetAt(c, p[1..], x).value, q[0]);
      if p[0] == q[0] {
        SetFrame(c, p[1..], x, q[1..]);
      }
    }
  }

  /** Above the edited place a location sees the same edit, further down its own path. */
  lemma {:induction false} EditAbove(v: Value, edit: Edit, p: Path, x: Value, q: Path)
    requires p != [] && EditAt(v, edit, p, x).Some?
    requires IsPrefix(q, p) && q != p
    ensures GetAt(v, q).Some?
    ensures GetAt(EditAt(v, edit, p, x).value, q) == EditAt(GetAt(v, q).value, edit, p[|q|..], x)
  {
    if q != [] {
      PrefixTail(q, p);
      var c := Child(v, p[0]).value;
      ChildOfWith(v, p[0], EditAt(c, edit, p[1..], x).value, p[0]);
      EditAbove(c, edit, p[1..], x, q[1..]);
      assert p[1..][|q[1..]|..] == p[|q|..];
    }
  }

  /** Where the location `q` moves when something is inserted at `p`. */
  function Shift(v: Value, p: Path, q: Path): Path
    requires p != []
  {
    if q == [] then q
    else if |p| == 1 then [ShiftStep(v, p[0], q[0])] + q[1..]
    else if p[0] == q[0] && Child(v, p[0]).Some? then [q[0]] + Shift(Child(v, p[0]).value, p[1..], q[1..])
    else q
  }

  /** Whether the last step of `p` names a member of an object, rather than a place in an array. */
  predicate EndsInObject(v: Value, p: Path) {
    p != [] && (match GetAt(v, p[..|p| - 1]) case Some(parent) => parent.Map? case None => false)
  }

  lemma EndsInObjectTail(v: Value, p: Path)
    requires |p| > 1 && Child(v, p[0]).Some?
    ensures EndsInObject(v, p) == EndsInObject(Child(v, p[0]).value, p[1..])
  {
    assert p[..|p| - 1][1..] == p[1..][..|p| - 2];
    assert p[..|p| - 1][0] == p[0];
  }

  /** After an insertion every other location is found where it moved to, with its old value. */
  lemma {:induction false} AddFrame(v: Value, p: Path, x: Value, q: Path)
    requires p != [] && AddAt(v, p, x).Some?
    requires IsPrefix(q, p) ==> q == p
    requires EndsInObject(v, p) ==> !IsPrefix(p, q)
    ensures GetAt(AddAt(v, p, x).value, Shift(v, p, q)) == GetAt(v, q)
  {
    PrefixTail(p, q);
    PrefixTail(q, p);
    var r := Shift(v, p, q);
    if |p| == 1 {
      assert GetAt(v, []) == Some(v);
      ChildOfInsert(v, p[0], x, q[0]);
      assert r[1..] == q[1..];
    } else {
      var c := Child(v, p[0]).value;
      EndsInObjectTail(v, p);
      ChildOfWith(v, p[0], AddAt(c, p[1..], x).value, q[0]);
      if p[0] == q[0] {
        AddFrame(c, p[1..], x, q[1..]);
        assert r[1..] == Shift(c, p[1..], q[1..]);
      }
    }
  }

  /** After a removal every remaining location was found, before, where an insertion would have moved it to. */
  lemma {:induction false} RemoveFrame(v: Value, p: Path, q: Path)
    requires RemoveAt(v, p).Some?
    requires IsPrefix(q, p) ==> q == p
    requires EndsInObject(v, p) ==> !IsPrefix(p, q)
    ensures GetAt(RemoveAt(v, p).value, q) == GetAt(v, Shift(v, p, q))
  {
    PrefixTail(p, q);
    PrefixTail(q, p);
    var r := Shift(v, p, q);
    if |p| == 1 {
      assert GetAt(v, []) == Some(v);
      ChildOfErase(v, p[0], Unit, q[0]);
      assert r[1..] == q[1..];
    } else {
      var c := Child(v, p[0]).value;
      EndsInObjectTail(v, p);
      ChildOfWith(v, p[0], RemoveAt(c, p[1..]).value, q[0]);
      if p[0] == q[0] {
        RemoveFrame(c, p[1..], q[1..]);
        assert r[1..] == Shift(c, p[1..], q[1..]);
      }
    }
  }

  /** A removal succeeds exactly where a get does, except at the root. */
  lemma {:induction false} RemoveWhereGet(v: Value, p: Path)
    ensures RemoveAt(v, p).Some? <==> p != [] && GetAt(v, p).Some?
  {
    if |p| > 1 && Child(v, p[0]).Some? {
      RemoveWhereGet(Child(v, p[0]).value, p[1..]);
    } else if |p| == 1 {
      assert GetAt(v, p) == Child(v, p[0]);
    }
  }

  /**
   Adding and then removing at the same place gives back the document, order
   included, exactly when the place was an array position or an absent member.
   */
  lemma {:induction false} AddThenRemove(v: Value, p: Path, x: Value)
    requires p != [] && AddAt(v, p, x).Some?
    ensures RemoveAt(AddAt(v, p, x).value, p) == Some(v) <==> (!EndsInObject(v, p) || GetAt(v, p).None?)
  {
    if |p| == 1 {
      assert GetAt(v, []) == Some(v);
      assert GetAt(v, p) == Child(v, p[0]);
      InsertThenErase(v, p[0], x, Unit);
    } else {
      var c := Child(v, p[0]).value;
      var c' := AddAt(c, p[1..], x).value;
      EndsInObjectTail(v, p);
      AddThenRemove(c, p[1..], x);
      var v' := WithChild(v, p[0], c');
      ChildOfWith(v, p[0], c', p[0]);
      GetAfterAdd(c, p[1..], x);
      RemoveWhereGet(c', p[1..]);
      var c2 := RemoveAt(c', p[1..]).value;
      WithTwice(v, p[0], c', c2);
      WithChildSame(v, p[0]);
      ChildOfWith(v, p[0], c2, p[0]);
    }
  }

  /** In an array, removing and adding back what was there gives back the document. */
  lemma {:induction false} RemoveThenAdd(v: Value, p: Path)
    requires RemoveAt(v, p).Some? && !EndsInObject(v, p)
    ensures GetAt(v, p).Some? && AddAt(RemoveAt(v, p).value, p, GetAt(v, p).value) == Some(v)
  {
    RemoveWhereGet(v, p);
    if |p| == 1 {
      assert GetAt(v, []) == Some(v);
      assert GetAt(v, p) == Child(v, p[0]);
      EraseThenInsert(v, p[0], Unit);
    } else {
      var c := Child(v, p[0]).value;
      var c' := RemoveAt(c, p[1..]).value;
      EndsInObjectTail(v, p);
      RemoveThenAdd(c, p[1..]);
      ChildOfWith(v, p[0], c', p[0]);
      WithTwice(v, p[0], c', c);
      WithChildSame(v, p[0]);
    }
  }

  lemma WithTwice(v: Value, step: Step, x: Value, y: Value)
    requires Child(v, step).Some?
    ensures Child(WithChild(v, step, x), step).Some?
    ensures WithChild(WithChild(v, step, x), step, y) == WithChild(v, step, y)
  {
    ChildOfWith(v, step, x, step);
    if v.Map? {
      SlotByKeys(v.entries, WithChild(v, step, x).entries, step.name);
    }
  }
}
