/**
 How objects are hashed, compared and ordered through the callbacks their type
 registered (src/lib.rs). A callback is a function of the objects it is given.
 */
module ObjectKeys {
  import opened Wrappers
  import opened Orderings

  datatype Object = Object(typeId: nat, address: nat)

  datatype Callbacks = Callbacks(
    hash: Option<Object -> nat>,
    equals: Option<(Object, Object) -> bool>,
    compare: Option<(Object, Object) -> int>,
    canSnapshot: bool)

  type Registry = nat -> Callbacks

  const NONE := Callbacks(None, None, None, false)

  /** Content keying needs a copy and an equality; without either an object is keyed by identity. */
  function Keying(reg: Registry, o: Object): Callbacks {
    var c := reg(o.typeId);
    if c.canSnapshot && (c.equals.Some? || c.compare.Some?) then c else NONE
  }

  function StructuralKey(reg: Registry, o: Object): nat {
    var c := Keying(reg, o);
    if c.hash.Some? then c.hash.value(o)
    else if c.equals.Some? || c.compare.Some? then 0
    else o.address
  }

  function StructuralEq(reg: Registry, a: Object, b: Object): Option<bool> {
    if a.typeId != b.typeId then None
    else
      var c := Keying(reg, a);
      if c.equals.Some? then Some(c.equals.value(a, b))
      else if c.compare.Some? then Some(c.compare.value(a, b) == 0)
      else None
  }

  function StructuralCmp(reg: Registry, a: Object, b: Object): Option<Ordering> {
    if a.typeId != b.typeId || Keying(reg, a).compare.None? then None
    else Some(CompareInt(Keying(reg, a).compare.value(a, b), 0))
  }

  predicate ObjectEq(reg: Registry, a: Object, b: Object) {
    match StructuralEq(reg, a, b)
    case Some(equal) => equal
    case None => a.address == b.address && a.typeId == b.typeId
  }

  function ObjectCmp(reg: Registry, a: Object, b: Object): Ordering {
    match StructuralCmp(reg, a, b)
    case Some(ordering) => ordering
    case None => CompareInt(a.typeId, b.typeId).Then(CompareInt(StructuralKey(reg, a), StructuralKey(reg, b)))
  }

  /** What an object feeds a hasher, after its variant. */
  function ObjectFeed(reg: Registry, o: Object): seq<int> {
    [o.typeId, StructuralKey(reg, o)]
  }

  ghost predicate IsEquivalence(t: nat, f: (Object, Object) -> bool) {
    && (forall a: Object :: a.typeId == t ==> f(a, a))
    && (forall a: Object, b: Object :: a.typeId == b.typeId == t && f(a, b) ==> f(b, a))
    && (forall a: Object, b: Object, c: Object :: a.typeId == b.typeId == c.typeId == t && f(a, b) && f(b, c) ==> f(a, c))
  }

  ghost predicate IsComparison(t: nat, g: (Object, Object) -> int) {
    && (forall a: Object, b: Object :: a.typeId == b.typeId == t ==> CompareInt(g(b, a), 0) == CompareInt(g(a, b), 0).Flip())
    && (forall a: Object, b: Object, c: Object :: a.typeId == b.typeId == c.typeId == t ==>
          Chains(CompareInt(g(a, b), 0), CompareInt(g(b, c), 0), CompareInt(g(a, c), 0)))
  }

  /** What a class promises of the callbacks it registers. */
  ghost predicate LawfulClass(t: nat, c: Callbacks) {
    && (c.equals.Some? ==> IsEquivalence(t, c.equals.value))
    && (c.compare.Some? ==> IsComparison(t, c.compare.value))
    && (c.equals.Some? && c.compare.Some? ==>
          forall a: Object, b: Object :: a.typeId == b.typeId == t ==> (c.compare.value(a, b) == 0 <==> c.equals.value(a, b)))
    && (c.hash.Some? && c.equals.Some? ==>
          forall a: Object, b: Object :: a.typeId == b.typeId == t && c.equals.value(a, b) ==> c.hash.value(a) == c.hash.value(b))
    && (c.hash.Some? && c.compare.Some? ==>
          forall a: Object, b: Object :: a.typeId == b.typeId == t && c.compare.value(a, b) == 0 ==> c.hash.value(a) == c.hash.value(b))
  }

  ghost predicate Lawful(reg: Registry) {
    forall t :: LawfulClass(t, reg(t))
  }

  lemma ObjectEqualityIsEquivalence(reg: Registry, a: Object, b: Object, c: Object)
    requires Lawful(reg)
    ensures ObjectEq(reg, a, a)
    ensures ObjectEq(reg, a, b) == ObjectEq(reg, b, a)
    ensures ObjectEq(reg, a, b) && ObjectEq(reg, b, c) ==> ObjectEq(reg, a, c)
  {
    assert LawfulClass(a.typeId, reg(a.typeId)) && LawfulClass(b.typeId, reg(b.typeId));
  }

  /** Equal objects hash alike and order as equal; the order is a total preorder over all types. */
  lemma ObjectOrderIsTotal(reg: Registry, a: Object, b: Object, c: Object)
    requires Lawful(reg)
    ensures ObjectEq(reg, a, b) ==> ObjectFeed(reg, a) == ObjectFeed(reg, b) && ObjectCmp(reg, a, b) == Equal
    ensures ObjectCmp(reg, b, a) == ObjectCmp(reg, a, b).Flip()
    ensures Chains(ObjectCmp(reg, a, b), ObjectCmp(reg, b, c), ObjectCmp(reg, a, c))
  {
    assert LawfulClass(a.typeId, reg(a.typeId)) && LawfulClass(b.typeId, reg(b.typeId));
  }

  /** A type is keyed by its contents when its instances can be copied and it defines an equality or a comparison. */
  predicate KeyedByContents(c: Callbacks) { c.canSnapshot && (c.equals.Some? || c.compare.Some?) }

  /** The class's own equality, or no difference by its comparison, or else the same object. */
  lemma ObjectEqualityIs(reg: Registry, a: Object, b: Object)
    ensures var c := reg(a.typeId);
            ObjectEq(reg, a, b) <==>
            && a.typeId == b.typeId
            && if KeyedByContents(c) && c.equals.Some? then c.equals.value(a, b)
               else if KeyedByContents(c) then c.compare.value(a, b) == 0
               else a.address == b.address
  {
  }

  /**
   Objects of one type are ordered by the sign of the class's comparison; without
   one by its hash, or not at all if it defines an equality alone; and without
   either by address. Objects of different types are ordered by type.
   */
  lemma ObjectOrderIs(reg: Registry, a: Object, b: Object)
    ensures var c := reg(a.typeId);
            ObjectCmp(reg, a, b) == Less <==>
            || a.typeId < b.typeId
            || (&& a.typeId == b.typeId
                && if KeyedByContents(c) && c.compare.Some? then c.compare.value(a, b) < 0
                   else if KeyedByContents(c) then c.hash.Some? && c.hash.value(a) < c.hash.value(b)
                   else a.address < b.address)
  {
  }

  /**
   The type's order can tell unequal instances apart: it has a comparison, or is
   keyed by identity; without a hash all instances must be equal, and with one
   all that hash alike.
   */
  ghost predicate Separates(reg: Registry, t: nat) {
    var c := reg(t);
    || !c.canSnapshot
    || c.compare.Some?
    || c.equals.None?
    || (c.hash.None? && forall a: Object, b: Object :: a.typeId == b.typeId == t ==> c.equals.value(a, b))
    || (c.hash.Some? && forall a: Object, b: Object :: a.typeId == b.typeId == t && c.hash.value(a) == c.hash.value(b) ==> c.equals.value(a, b))
  }

  ghost predicate Agrees(reg: Registry, a: Object, b: Object) {
    ObjectCmp(reg, a, b) == Equal <==> ObjectEq(reg, a, b)
  }

  /** Order and equality agree on a type exactly when its callbacks separate its instances. */
  lemma OrderAgreesExactlyWhen(reg: Registry, t: nat)
    requires Lawful(reg)
    ensures Separates(reg, t) <==> forall a: Object, b: Object :: a.typeId == b.typeId == t ==> Agrees(reg, a, b)
  {
    assert LawfulClass(t, reg(t));
    if !Separates(reg, t) {
      var a: Object, b: Object :| a.typeId == b.typeId == t && !reg(t).equals.value(a, b) &&
                                  (reg(t).hash.Some? ==> reg(t).hash.value(a) == reg(t).hash.value(b));
      assert !Agrees(reg, a, b);
    }
  }

  /** A class with an equality and no order: unequal instances tie. */
  lemma EqualityWithoutOrderTies()
    ensures exists reg: Registry, a: Object, b: Object :: Lawful(reg) && ObjectCmp(reg, a, b) == Equal && !ObjectEq(reg, a, b)
  {
    var same := (a: Object, b: Object) => a.address == b.address;
    var reg: Registry := t => Callbacks(None, Some(same), None, true);
    var a, b := Object(0, 1), Object(0, 2);
    assert ObjectCmp(reg, a, b) == Equal && !ObjectEq(reg, a, b);
  }
}
