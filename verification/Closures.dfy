/**
 Closures, capture cells and the values the cells hold (src/closure.rs and the
 value counts of src/refcount.rs). Objects are named by the order in which they
 were allocated; a freed object stays as a gap. Freeing is recorded, and touching
 a freed object sets `fault`.
 */
module Closures {
  import opened Wrappers

  datatype Cell = Cell(count: nat, value: Option<nat>)

  /** A closure; `captures` is absent for a capture-free closure, and a captured cell may be null. */
  datatype Closure = Closure(count: nat, captures: Option<seq<Option<nat>>>)

  datatype State = State(
    values: seq<Option<nat>>,
    cells: seq<Option<Cell>>,
    closures: seq<Option<Closure>>,
    // the closures that were allocated with a capture array
    arrays: set<nat>,
    // references held by variables
    valueRefs: multiset<nat>,
    cellRefs: multiset<nat>,
    closureRefs: multiset<nat>,
    // what was freed, as often as it was
    freedValues: multiset<nat>,
    freedCells: multiset<nat>,
    freedArrays: multiset<nat>,
    freedClosures: multiset<nat>,
    fault: bool)

  const EMPTY := State([], [], [], {}, multiset{}, multiset{}, multiset{}, multiset{}, multiset{}, multiset{}, multiset{}, false)

  predicate LiveValue(s: State, v: nat) { v < |s.values| && s.values[v].Some? }
  predicate LiveCell(s: State, c: nat) { c < |s.cells| && s.cells[c].Some? }
  predicate LiveClosure(s: State, k: nat) { k < |s.closures| && s.closures[k].Some? }

  // ----- retain and release -----

  function DecValue(s: State, o: Option<nat>): State {
    match o
    case None => s
    case Some(v) =>
      if !LiveValue(s, v) || s.values[v].value == 0 then s.(fault := true)
      else if s.values[v].value == 1 then s.(values := s.values[v := None], freedValues := s.freedValues + multiset{v})
      else s.(values := s.values[v := Some(s.values[v].value - 1)])
  }

  function IncValue(s: State, o: Option<nat>): State {
    match o
    case None => s
    case Some(v) =>
      if !LiveValue(s, v) then s.(fault := true) else s.(values := s.values[v := Some(s.values[v].value + 1)])
  }

  function RetainCell(s: State, o: Option<nat>): State {
    match o
    case None => s
    case Some(c) =>
      if !LiveCell(s, c) then s.(fault := true)
      else s.(cells := s.cells[c := Some(s.cells[c].value.(count := s.cells[c].value.count + 1))])
  }

  function ReleaseCell(s: State, o: Option<nat>): State {
    match o
    case None => s
    case Some(c) =>
      if !LiveCell(s, c) then s.(fault := true)
      else if s.cells[c].value.count > 1 then
        s.(cells := s.cells[c := Some(s.cells[c].value.(count := s.cells[c].value.count - 1))])
      else DecValue(s.(cells := s.cells[c := None], freedCells := s.freedCells + multiset{c}), s.cells[c].value.value)
  }

  function RetainCells(s: State, captures: seq<Option<nat>>): State
    decreases captures
  {
    if captures == [] then s else RetainCells(RetainCell(s, captures[0]), captures[1..])
  }

  function ReleaseCells(s: State, captures: seq<Option<nat>>): State
    decreases captures
  {
    if captures == [] then s else ReleaseCells(ReleaseCell(s, captures[0]), captures[1..])
  }

  function RetainClosure(s: State, o: Option<nat>): State {
    match o
    case None => s
    case Some(k) =>
      if !LiveClosure(s, k) then s.(fault := true)
      else s.(closures := s.closures[k := Some(s.closures[k].value.(count := s.closures[k].value.count + 1))])
  }

  /** The last reference is gone: the cells are released, and the array and the closure are freed. */
  function TearDown(s: State, k: nat, captures: Option<seq<Option<nat>>>): State {
    var s1 := s.(freedClosures := s.freedClosures + multiset{k});
    match captures
    case None => s1
    case Some(cells) => ReleaseCells(s1.(freedArrays := s.freedArrays + multiset{k}), cells)
  }

  function ReleaseClosure(s: State, o: Option<nat>): State {
    match o
    case None => s
    case Some(k) =>
      if !LiveClosure(s, k) then s.(fault := true)
      else if s.closures[k].value.count > 1 then
        s.(closures := s.closures[k := Some(s.closures[k].value.(count := s.closures[k].value.count - 1))])
      else TearDown(s.(closures := s.closures[k := None]), k, s.closures[k].value.captures)
  }

  // ----- who holds what -----

  function Owed(o: Option<nat>): multiset<nat> { match o case None => multiset{} case Some(x) => multiset{x} }

  function OwedAll(captures: seq<Option<nat>>): multiset<nat> {
    if captures == [] then multiset{} else Owed(captures[0]) + OwedAll(captures[1..])
  }

  function InCell(o: Option<Cell>, v: nat): nat { if o.Some? then Owed(o.value.value)[v] else 0 }

  function InClosure(o: Option<Closure>, c: nat): nat {
    if o.Some? && o.value.captures.Some? then OwedAll(o.value.captures.value)[c] else 0
  }

  /** How many live cells hold value `v`. */
  function Holding(cells: seq<Option<Cell>>, v: nat): nat {
    if cells == [] then 0 else Holding(cells[..|cells| - 1], v) + InCell(cells[|cells| - 1], v)
  }

  /** How often cell `c` occurs in the capture arrays of live closures. */
  function Captured(closures: seq<Option<Closure>>, c: nat): nat {
    if closures == [] then 0 else Captured(closures[..|closures| - 1], c) + InClosure(closures[|closures| - 1], c)
  }

  lemma {:induction false} HoldingUpdate(cells: seq<Option<Cell>>, i: nat, x: Option<Cell>, v: nat)
    requires i < |cells|
    ensures Holding(cells[i := x], v) + InCell(cells[i], v) == Holding(cells, v) + InCell(x, v)
  {
    var front := cells[..|cells| - 1];
    if i < |front| {
      assert cells[i := x][..|cells| - 1] == front[i := x];
      HoldingUpdate(front, i, x, v);
    } else {
      assert cells[i := x][..|cells| - 1] == front;
    }
  }

  lemma HoldingAppend(cells: seq<Option<Cell>>, x: Option<Cell>, v: nat)
    ensures Holding(cells + [x], v) == Holding(cells, v) + InCell(x, v)
  {
    assert (cells + [x])[..|cells|] == cells;
  }

  lemma {:induction false} CapturedUpdate(closures: seq<Option<Closure>>, i: nat, x: Option<Closure>, c: nat)
    requires i < |closures|
    ensures Captured(closures[i := x], c) + InClosure(closures[i], c) == Captured(closures, c) + InClosure(x, c)
  {
    var front := closures[..|closures| - 1];
    if i < |front| {
      assert closures[i := x][..|closures| - 1] == front[i := x];
      CapturedUpdate(front, i, x, c);
    } else {
      assert closures[i := x][..|closures| - 1] == front;
    }
  }

  lemma CapturedAppend(closures: seq<Option<Closure>>, x: Option<Closure>, c: nat)
    ensures Captured(closures + [x], c) == Captured(closures, c) + InClosure(x, c)
  {
    assert (closures + [x])[..|closures|] == closures;
  }

  // ----- the invariant -----

  /** A value is live exactly while it is held, its count is the number of holders, and a dead one was freed once. */
  predicate ValueFits(s: State, v: nat, owed: nat) {
    var holders := s.valueRefs[v] + Holding(s.cells, v) + owed;
    if LiveValue(s, v) then s.values[v].value == holders > 0 && s.freedValues[v] == 0
    else holders == 0 && s.freedValues[v] == if v < |s.values| then 1 else 0
  }

  predicate CellFits(s: State, c: nat, owed: nat) {
    var holders := s.cellRefs[c] + Captured(s.closures, c) + owed;
    if LiveCell(s, c) then s.cells[c].value.count == holders > 0 && s.freedCells[c] == 0
    else holders == 0 && s.freedCells[c] == if c < |s.cells| then 1 else 0
  }

  predicate ClosureFits(s: State, k: nat) {
    && (k in s.arrays ==> k < |s.closures|)
    && if LiveClosure(s, k) then
         && s.closures[k].value.count == s.closureRefs[k] > 0
         && (s.closures[k].value.captures.Some? <==> k in s.arrays)
         && s.freedClosures[k] == s.freedArrays[k] == 0
       else
         && s.closureRefs[k] == 0
         && s.freedClosures[k] == (if k < |s.closures| then 1 else 0)
         && s.freedArrays[k] == (if k in s.arrays then 1 else 0)
  }

  /** The counts, when releases of the values `v` and the cells `c` are still to come. */
  ghost predicate Counts(s: State, v: multiset<nat>, c: multiset<nat>) {
    && !s.fault
    && (forall i {:trigger ValueFits(s, i, v[i])} :: ValueFits(s, i, v[i]))
    && (forall i {:trigger CellFits(s, i, c[i])} :: CellFits(s, i, c[i]))
    && (forall k {:trigger ClosureFits(s, k)} :: ClosureFits(s, k))
  }

  ghost predicate Inv(s: State) { Counts(s, multiset{}, multiset{}) }

  // ----- releases settle what is owed -----

  lemma DecSettles(s: State, o: Option<nat>, v: multiset<nat>, c: multiset<nat>)
    requires Counts(s, v + Owed(o), c)
    ensures Counts(DecValue(s, o), v, c)
  {
    var s' := DecValue(s, o);
    forall i ensures ValueFits(s', i, v[i]) { assert ValueFits(s, i, (v + Owed(o))[i]); }
    forall i ensures CellFits(s', i, c[i]) { assert CellFits(s, i, c[i]); }
    forall k ensures ClosureFits(s', k) { assert ClosureFits(s, k); }
    if o.Some? { assert ValueFits(s, o.value, (v + Owed(o))[o.value]); }
  }

  lemma ReleaseCellSettles(s: State, o: Option<nat>, v: multiset<nat>, c: multiset<nat>)
    requires Counts(s, v, c + Owed(o))
    ensures Counts(ReleaseCell(s, o), v, c)
  {
    if o.None? {
      assert c + Owed(o) == c;
      return;
    }
    var x := o.value;
    assert CellFits(s, x, (c + Owed(o))[x]);
    var cell := s.cells[x].value;
    var last := cell.count == 1;
    var cells := s.cells[x := if last then None else Some(cell.(count := cell.count - 1))];
    var s1 := s.(cells := cells, freedCells := if last then s.freedCells + multiset{x} else s.freedCells);
    var v1 := if last then v + Owed(cell.value) else v;
    forall i ensures ValueFits(s1, i, v1[i]) {
      assert ValueFits(s, i, v[i]);
      HoldingUpdate(s.cells, x, cells[x], i);
    }
    forall i ensures CellFits(s1, i, c[i]) { assert CellFits(s, i, (c + Owed(o))[i]); }
    forall k ensures ClosureFits(s1, k) { assert ClosureFits(s, k); }
    if last {
      DecSettles(s1, cell.value, v, c);
    }
  }

  lemma {:induction false} ReleaseCellsSettle(s: State, captures: seq<Option<nat>>, v: multiset<nat>, c: multiset<nat>)
    requires Counts(s, v, c + OwedAll(captures))
    ensures Counts(ReleaseCells(s, captures), v, c)
    decreases captures
  {
    if captures == [] {
      assert c + OwedAll(captures) == c;
    } else {
      var rest := c + OwedAll(captures[1..]);
      assert c + OwedAll(captures) == rest + Owed(captures[0]);
      ReleaseCellSettles(s, captures[0], v, rest);
      ReleaseCellsSettle(ReleaseCell(s, captures[0]), captures[1..], v, c);
    }
  }

  /** A closure that goes owes one release of each cell it captured. */
  lemma LastReference(s: State, k: nat, s': State, cells: seq<Option<nat>>)
    requires Inv(s) && LiveClosure(s, k) && s.closures[k].value.count == 1 && k in s.closureRefs
    requires cells == if s.closures[k].value.captures.Some? then s.closures[k].value.captures.value else []
    requires s' == s.(closureRefs := s.closureRefs - multiset{k},
                      closures := s.closures[k := None],
                      freedClosures := s.freedClosures + multiset{k},
                      freedArrays := if s.closures[k].value.captures.Some? then s.freedArrays + multiset{k} else s.freedArrays)
    ensures Counts(s', multiset{}, multiset{} + OwedAll(cells))
  {
    assert ClosureFits(s, k);
    forall i ensures ValueFits(s', i, multiset{}[i]) { assert ValueFits(s, i, multiset{}[i]); }
    forall i ensures CellFits(s', i, (multiset{} + OwedAll(cells))[i]) {
      assert CellFits(s, i, multiset{}[i]);
      CapturedUpdate(s.closures, k, None, i);
    }
    forall j ensures ClosureFits(s', j) { assert ClosureFits(s, j); }
  }

  lemma NotLastReference(s: State, k: nat, s': State)
    requires Inv(s) && LiveClosure(s, k) && s.closures[k].value.count > 1 && k in s.closureRefs
    requires s' == s.(closureRefs := s.closureRefs - multiset{k},
                      closures := s.closures[k := Some(s.closures[k].value.(count := s.closures[k].value.count - 1))])
    ensures Inv(s')
  {
    assert ClosureFits(s, k);
    forall i ensures ValueFits(s', i, multiset{}[i]) { assert ValueFits(s, i, multiset{}[i]); }
    forall i ensures CellFits(s', i, multiset{}[i]) {
      assert CellFits(s, i, multiset{}[i]);
      CapturedUpdate(s.closures, k, s'.closures[k], i);
    }
    forall j ensures ClosureFits(s', j) { assert ClosureFits(s, j); }
  }

  lemma ReleaseClosureSettles(s: State, o: Option<nat>)
    requires Inv(s) && (o.Some? ==> o.value in s.closureRefs)
    ensures Inv(ReleaseClosure(s.(closureRefs := s.closureRefs - Owed(o)), o))
  {
    if o.None? {
      assert s.closureRefs - Owed(o) == s.closureRefs;
      return;
    }
    var k, s0 := o.value, s.(closureRefs := s.closureRefs - Owed(o));
    assert ClosureFits(s, k);
    var closure := s.closures[k].value;
    if closure.count > 1 {
      NotLastReference(s, k, ReleaseClosure(s0, o));
    } else {
      var cells := if closure.captures.Some? then closure.captures.value else [];
      var s1 := s0.(closures := s.closures[k := None],
                    freedClosures := s.freedClosures + multiset{k},
                    freedArrays := if closure.captures.Some? then s.freedArrays + multiset{k} else s.freedArrays);
      LastReference(s, k, s1, cells);
      ReleaseCellsSettle(s1, cells, multiset{}, multiset{});
    }
  }

  // ----- retains, and allocation -----

  /** A retained cell is one ahead of its recorded holders. */
  lemma RetainCellAhead(s: State, o: Option<nat>, v: multiset<nat>, c: multiset<nat>)
    requires Counts(s, v, c) && (o.Some? ==> o.value in s.cellRefs)
    ensures Counts(RetainCell(s, o), v, c + Owed(o))
  {
    if o.None? {
      assert c + Owed(o) == c;
      return;
    }
    var s' := RetainCell(s, o);
    assert CellFits(s, o.value, c[o.value]);
    forall i ensures ValueFits(s', i, v[i]) {
      assert ValueFits(s, i, v[i]);
      HoldingUpdate(s.cells, o.value, s'.cells[o.value], i);
    }
    forall i ensures CellFits(s', i, (c + Owed(o))[i]) { assert CellFits(s, i, c[i]); }
    forall k ensures ClosureFits(s', k) { assert ClosureFits(s, k); }
  }

  lemma {:induction false} RetainCellsAhead(s: State, captures: seq<Option<nat>>, c: multiset<nat>)
    requires Counts(s, multiset{}, c)
    requires forall i :: 0 <= i < |captures| && captures[i].Some? ==> captures[i].value in s.cellRefs
    ensures Counts(RetainCells(s, captures), multiset{}, c + OwedAll(captures))
    decreases captures
  {
    if captures == [] {
      assert c + OwedAll(captures) == c;
    } else {
      var s' := RetainCell(s, captures[0]);
      RetainCellAhead(s, captures[0], multiset{}, c);
      RetainCellsAhead(s', captures[1..], c + Owed(captures[0]));
      assert c + Owed(captures[0]) + OwedAll(captures[1..]) == c + OwedAll(captures);
    }
  }

  datatype Op =
    | NewValue
    | RetainValue(o: Option<nat>)
    | ReleaseValue(o: Option<nat>)
    | NewCell(o: Option<nat>)
    | CellRetain(o: Option<nat>)
    | CellRelease(o: Option<nat>)
    | NewClosure(captures: Option<seq<Option<nat>>>)
    | ClosureRetain(o: Option<nat>)
    | ClosureRelease(o: Option<nat>)

  /** Callers hold the reference they retain, release or hand over; null is always allowed. */
  predicate Enabled(s: State, op: Op) {
    match op
    case NewValue => true
    case RetainValue(o) => o.Some? ==> o.value in s.valueRefs
    case ReleaseValue(o) => o.Some? ==> o.value in s.valueRefs
    case NewCell(o) => o.Some? ==> o.value in s.valueRefs
    case CellRetain(o) => o.Some? ==> o.value in s.cellRefs
    case CellRelease(o) => o.Some? ==> o.value in s.cellRefs
    case NewClosure(captures) =>
      captures.Some? ==> forall i :: 0 <= i < |captures.value| && captures.value[i].Some? ==> captures.value[i].value in s.cellRefs
    case ClosureRetain(o) => o.Some? ==> o.value in s.closureRefs
    case ClosureRelease(o) => o.Some? ==> o.value in s.closureRefs
  }

  function Apply(s: State, op: Op): State {
    match op
    case NewValue => s.(values := s.values + [Some(1)], valueRefs := s.valueRefs + multiset{|s.values|})
    case RetainValue(o) => IncValue(s.(valueRefs := s.valueRefs + Owed(o)), o)
    case ReleaseValue(o) => DecValue(s.(valueRefs := s.valueRefs - Owed(o)), o)
    case NewCell(o) =>
      s.(cells := s.cells + [Some(Cell(1, o))], valueRefs := s.valueRefs - Owed(o), cellRefs := s.cellRefs + multiset{|s.cells|})
    case CellRetain(o) => RetainCell(s.(cellRefs := s.cellRefs + Owed(o)), o)
    case CellRelease(o) => ReleaseCell(s.(cellRefs := s.cellRefs - Owed(o)), o)
    case NewClosure(captures) =>
      var s' := if captures.Some? then RetainCells(s, captures.value) else s;
      s'.(closures := s'.closures + [Some(Closure(1, captures))],
          arrays := if captures.Some? then s'.arrays + {|s'.closures|} else s'.arrays,
          closureRefs := s'.closureRefs + multiset{|s'.closures|})
    case ClosureRetain(o) => RetainClosure(s.(closureRefs := s.closureRefs + Owed(o)), o)
    case ClosureRelease(o) => ReleaseClosure(s.(closureRefs := s.closureRefs - Owed(o)), o)
  }

  lemma NewValueKeeps(s: State)
    requires Inv(s)
    ensures Inv(Apply(s, NewValue))
  {
    var s' := Apply(s, NewValue);
    forall i ensures ValueFits(s', i, multiset{}[i]) { assert ValueFits(s, i, multiset{}[i]); }
    forall i ensures CellFits(s', i, multiset{}[i]) { assert CellFits(s, i, multiset{}[i]); }
    forall k ensures ClosureFits(s', k) { assert ClosureFits(s, k); }
  }

  lemma RetainValueKeeps(s: State, o: Option<nat>)
    requires Inv(s) && Enabled(s, RetainValue(o))
    ensures Inv(Apply(s, RetainValue(o)))
  {
    var s' := Apply(s, RetainValue(o));
    forall i ensures ValueFits(s', i, multiset{}[i]) { assert ValueFits(s, i, multiset{}[i]); }
    forall i ensures CellFits(s', i, multiset{}[i]) { assert CellFits(s, i, multiset{}[i]); }
    forall k ensures ClosureFits(s', k) { assert ClosureFits(s, k); }
    if o.Some? { assert ValueFits(s, o.value, multiset{}[o.value]); }
  }

  lemma ReleaseValueKeeps(s: State, o: Option<nat>)
    requires Inv(s) && Enabled(s, ReleaseValue(o))
    ensures Inv(Apply(s, ReleaseValue(o)))
  {
    var s1, none := s.(valueRefs := s.valueRefs - Owed(o)), multiset{};
    forall i ensures ValueFits(s1, i, (none + Owed(o))[i]) { assert ValueFits(s, i, none[i]); }
    forall i ensures CellFits(s1, i, none[i]) { assert CellFits(s, i, none[i]); }
    forall k ensures ClosureFits(s1, k) { assert ClosureFits(s, k); }
    DecSettles(s1, o, none, none);
  }

  lemma NewCellKeeps(s: State, o: Option<nat>)
    requires Inv(s) && Enabled(s, NewCell(o))
    ensures Inv(Apply(s, NewCell(o)))
  {
    var s' := Apply(s, NewCell(o));
    assert CellFits(s, |s.cells|, multiset{}[|s.cells|]);
    forall i ensures ValueFits(s', i, multiset{}[i]) {
      assert ValueFits(s, i, multiset{}[i]);
      HoldingAppend(s.cells, Some(Cell(1, o)), i);
    }
    forall i ensures CellFits(s', i, multiset{}[i]) { assert CellFits(s, i, multiset{}[i]); }
    forall k ensures ClosureFits(s', k) { assert ClosureFits(s, k); }
  }

  lemma CellReleaseKeeps(s: State, o: Option<nat>)
    requires Inv(s) && Enabled(s, CellRelease(o))
    ensures Inv(Apply(s, CellRelease(o)))
  {
    var s1, none := s.(cellRefs := s.cellRefs - Owed(o)), multiset{};
    forall i ensures ValueFits(s1, i, none[i]) { assert ValueFits(s, i, none[i]); }
    forall i ensures CellFits(s1, i, (none + Owed(o))[i]) { assert CellFits(s, i, none[i]); }
    forall k ensures ClosureFits(s1, k) { assert ClosureFits(s, k); }
    ReleaseCellSettles(s1, o, none, none);
  }

  lemma CellRetainKeeps(s: State, o: Option<nat>)
    requires Inv(s) && Enabled(s, CellRetain(o))
    ensures Inv(Apply(s, CellRetain(o)))
  {
    var s1, s', none := RetainCell(s, o), Apply(s, CellRetain(o)), multiset{};
    RetainCellAhead(s, o, none, none);
    assert s' == s1.(cellRefs := s.cellRefs + Owed(o));
    forall i ensures ValueFits(s', i, none[i]) { assert ValueFits(s1, i, none[i]); }
    forall i ensures CellFits(s', i, none[i]) { assert CellFits(s1, i, (none + Owed(o))[i]); }
    forall k ensures ClosureFits(s', k) { assert ClosureFits(s1, k); }
  }

  lemma NewClosureKeeps(s: State, captures: Option<seq<Option<nat>>>)
    requires Inv(s) && Enabled(s, NewClosure(captures))
    ensures Inv(Apply(s, NewClosure(captures)))
  {
    var cells, none := if captures.Some? then captures.value else [], multiset{};
    var s1, s' := RetainCells(s, cells), Apply(s, NewClosure(captures));
    RetainCellsAhead(s, cells, none);
    assert ClosureFits(s1, |s1.closures|);
    forall i ensures ValueFits(s', i, none[i]) { assert ValueFits(s1, i, none[i]); }
    forall i ensures CellFits(s', i, none[i]) {
      assert CellFits(s1, i, (none + OwedAll(cells))[i]);
      CapturedAppend(s1.closures, Some(Closure(1, captures)), i);
    }
    forall k ensures ClosureFits(s', k) { assert ClosureFits(s1, k); }
  }

  lemma ClosureRetainKeeps(s: State, o: Option<nat>)
    requires Inv(s) && Enabled(s, ClosureRetain(o))
    ensures Inv(Apply(s, ClosureRetain(o)))
  {
    if o.None? {
      assert s.closureRefs + Owed(o) == s.closureRefs;
      return;
    }
    var s' := Apply(s, ClosureRetain(o));
    assert ClosureFits(s, o.value);
    forall i ensures ValueFits(s', i, multiset{}[i]) { assert ValueFits(s, i, multiset{}[i]); }
    forall i ensures CellFits(s', i, multiset{}[i]) {
      assert CellFits(s, i, multiset{}[i]);
      CapturedUpdate(s.closures, o.value, s'.closures[o.value], i);
    }
    forall k ensures ClosureFits(s', k) { assert ClosureFits(s, k); }
  }

  lemma OpKeeps(s: State, op: Op)
    requires Inv(s) && Enabled(s, op)
    ensures Inv(Apply(s, op))
  {
    match op {
      case NewValue => NewValueKeeps(s);
      case RetainValue(o) => RetainValueKeeps(s, o);
      case ReleaseValue(o) => ReleaseValueKeeps(s, o);
      case NewCell(o) => NewCellKeeps(s, o);
      case CellRetain(o) => CellRetainKeeps(s, o);
      case CellRelease(o) => CellReleaseKeeps(s, o);
      case NewClosure(captures) => NewClosureKeeps(s, captures);
      case ClosureRetain(o) => ClosureRetainKeeps(s, o);
      case ClosureRelease(o) => ReleaseClosureSettles(s, o);
    }
  }

  // ----- whole runs -----

  function Run(s: State, ops: seq<Op>): State
    decreases ops
  {
    if ops == [] then s else Run(Apply(s, ops[0]), ops[1..])
  }

  predicate Allowed(s: State, ops: seq<Op>)
    decreases ops
  {
    ops == [] || (Enabled(s, ops[0]) && Allowed(Apply(s, ops[0]), ops[1..]))
  }

  lemma {:induction false} RunKeeps(s: State, ops: seq<Op>)
    requires Inv(s) && Allowed(s, ops)
    ensures Inv(Run(s, ops))
    decreases ops
  {
    if ops != [] {
      OpKeeps(s, ops[0]);
      RunKeeps(Apply(s, ops[0]), ops[1..]);
    }
  }

  /** No run ever touches a freed object, and every count is the number of holders. */
  lemma CountsAreHolders(ops: seq<Op>, x: nat)
    requires Allowed(EMPTY, ops)
    ensures !Run(EMPTY, ops).fault
    ensures var s := Run(EMPTY, ops);
            LiveCell(s, x) ==> s.cells[x].value.count == s.cellRefs[x] + Captured(s.closures, x) > 0
    ensures var s := Run(EMPTY, ops);
            LiveValue(s, x) ==> s.values[x].value == s.valueRefs[x] + Holding(s.cells, x) > 0
    ensures var s := Run(EMPTY, ops);
            LiveClosure(s, x) ==> s.closures[x].value.count == s.closureRefs[x] > 0
  {
    assert Inv(EMPTY);
    RunKeeps(EMPTY, ops);
    var s := Run(EMPTY, ops);
    assert ValueFits(s, x, multiset{}[x]) && CellFits(s, x, multiset{}[x]) && ClosureFits(s, x);
  }

  /** Whatever was allocated is live and not freed, or not held by anything and freed exactly once. */
  lemma FreedExactlyOnce(ops: seq<Op>, x: nat)
    requires Allowed(EMPTY, ops)
    ensures var s := Run(EMPTY, ops);
            && (x < |s.closures| ==> s.freedClosures[x] == if LiveClosure(s, x) then 0 else 1)
            && (x in s.arrays ==> s.freedArrays[x] == if LiveClosure(s, x) then 0 else 1)
            && (x < |s.cells| ==> s.freedCells[x] == if LiveCell(s, x) then 0 else 1)
            && (x < |s.values| ==> s.freedValues[x] == if LiveValue(s, x) then 0 else 1)
    ensures var s := Run(EMPTY, ops);
            && (s.closureRefs[x] > 0 ==> LiveClosure(s, x))
            && (s.cellRefs[x] + Captured(s.closures, x) > 0 <==> LiveCell(s, x))
            && (s.valueRefs[x] + Holding(s.cells, x) > 0 <==> LiveValue(s, x))
  {
    assert Inv(EMPTY);
    RunKeeps(EMPTY, ops);
    var s := Run(EMPTY, ops);
    assert ValueFits(s, x, multiset{}[x]) && CellFits(s, x, multiset{}[x]) && ClosureFits(s, x);
  }

  lemma {:induction false} NoneCaptured(closures: seq<Option<Closure>>, c: nat)
    requires forall k :: 0 <= k < |closures| ==> closures[k].None?
    ensures Captured(closures, c) == 0
  {
    if closures != [] {
      NoneCaptured(closures[..|closures| - 1], c);
    }
  }

  lemma {:induction false} NoneHeld(cells: seq<Option<Cell>>, v: nat)
    requires forall c :: 0 <= c < |cells| ==> cells[c].None?
    ensures Holding(cells, v) == 0
  {
    if cells != [] {
      NoneHeld(cells[..|cells| - 1], v);
    }
  }

  /** When no variable holds a reference, everything that was allocated has been freed, once. */
  lemma NothingIsLeaked(ops: seq<Op>, x: nat)
    requires Allowed(EMPTY, ops)
    requires var s := Run(EMPTY, ops); s.valueRefs == s.cellRefs == s.closureRefs == multiset{}
    ensures var s := Run(EMPTY, ops);
            && (x < |s.closures| ==> s.closures[x].None? && s.freedClosures[x] == 1)
            && (x in s.arrays ==> s.freedArrays[x] == 1)
            && (x < |s.cells| ==> s.cells[x].None? && s.freedCells[x] == 1)
            && (x < |s.values| ==> s.values[x].None? && s.freedValues[x] == 1)
  {
    assert Inv(EMPTY);
    RunKeeps(EMPTY, ops);
    var s := Run(EMPTY, ops);
    forall k: nat | k < |s.closures| ensures s.closures[k].None? { assert ClosureFits(s, k); }
    forall c: nat | c < |s.cells| ensures s.cells[c].None? {
      NoneCaptured(s.closures, c);
      assert CellFits(s, c, multiset{}[c]);
    }
    forall v: nat | v < |s.values| ensures s.values[v].None? {
      NoneHeld(s.cells, v);
      assert ValueFits(s, v, multiset{}[v]);
    }
    FreedExactlyOnce(ops, x);
    assert ClosureFits(s, x);
  }

  // ----- the same in place -----

  /** The allocations with their counts; `ledger` records the holders and what was freed. */
  class Heap {
    var values: seq<Option<nat>>
    var cells: seq<Option<Cell>>
    var closures: seq<Option<Closure>>
    ghost var ledger: State

    ghost function Now(): State
      reads this
    {
      ledger.(values := values, cells := cells, closures := closures)
    }

    constructor ()
      ensures Now() == EMPTY && Inv(Now())
    {
      values, cells, closures, ledger := [], [], [], EMPTY;
    }

    method RcDec(o: Option<nat>)
      requires !DecValue(Now(), o).fault
      modifies `values, `ledger
      ensures Now() == DecValue(old(Now()), o)
    {
      if o.None? {
        return;
      }
      var v := o.value;
      var count := values[v].value;
      values := values[v := Some(count - 1)];
      if count == 1 {
        values := values[v := None];
        ledger := ledger.(freedValues := ledger.freedValues + multiset{v});
      }
    }

    method ReleaseCellRef(o: Option<nat>)
      requires !ReleaseCell(Now(), o).fault
      modifies `values, `cells, `ledger
      ensures Now() == ReleaseCell(old(Now()), o)
    {
      if o.None? {
        return;
      }
      var c := o.value;
      var cell := cells[c].value;
      if cell.count > 1 {
        cells := cells[c := Some(cell.(count := cell.count - 1))];
        return;
      }
      cells := cells[c := None];
      ledger := ledger.(freedCells := ledger.freedCells + multiset{c});
      RcDec(cell.value);
    }

    method AllocCell(o: Option<nat>) returns (c: nat)
      requires Inv(Now()) && Enabled(Now(), NewCell(o))
      modifies this
      ensures Now() == Apply(old(Now()), NewCell(o)) && Inv(Now())
      ensures c == |old(cells)| && LiveCell(Now(), c)
    {
      OpKeeps(Now(), NewCell(o));
      c := |cells|;
      cells := cells + [Some(Cell(1, o))];
      ledger := ledger.(valueRefs := ledger.valueRefs - Owed(o), cellRefs := ledger.cellRefs + multiset{c});
    }

    method RetainCellRef(o: Option<nat>)
      requires Inv(Now()) && Enabled(Now(), CellRetain(o))
      modifies this
      ensures Now() == Apply(old(Now()), CellRetain(o)) && Inv(Now())
    {
      OpKeeps(Now(), CellRetain(o));
      ledger := ledger.(cellRefs := ledger.cellRefs + Owed(o));
      if o.Some? {
        cells := cells[o.value := Some(cells[o.value].value.(count := cells[o.value].value.count + 1))];
      }
    }

    method DropCell(o: Option<nat>)
      requires Inv(Now()) && Enabled(Now(), CellRelease(o))
      modifies this
      ensures Now() == Apply(old(Now()), CellRelease(o)) && Inv(Now())
    {
      OpKeeps(Now(), CellRelease(o));
      ledger := ledger.(cellRefs := ledger.cellRefs - Owed(o));
      ReleaseCellRef(o);
    }

    method RetainClosureRef(o: Option<nat>)
      requires Inv(Now()) && Enabled(Now(), ClosureRetain(o))
      modifies this
      ensures Now() == Apply(old(Now()), ClosureRetain(o)) && Inv(Now())
    {
      OpKeeps(Now(), ClosureRetain(o));
      ledger := ledger.(closureRefs := ledger.closureRefs + Owed(o));
      if o.Some? {
        closures := closures[o.value := Some(closures[o.value].value.(count := closures[o.value].value.count + 1))];
      }
    }

    /** Drop one reference to a closure; the last one releases every captured cell in turn. */
    method DropClosure(o: Option<nat>)
      requires Inv(Now()) && Enabled(Now(), ClosureRelease(o))
      modifies this
      ensures Now() == Apply(old(Now()), ClosureRelease(o)) && Inv(Now())
    {
      ghost var goal := Apply(Now(), ClosureRelease(o));
      OpKeeps(Now(), ClosureRelease(o));
      ledger := ledger.(closureRefs := ledger.closureRefs - Owed(o));
      if o.None? {
        return;
      }
      var k := o.value;
      var closure := closures[k].value;
      if closure.count > 1 {
        closures := closures[k := Some(closure.(count := closure.count - 1))];
        return;
      }
      closures := closures[k := None];
      ledger := ledger.(freedClosures := ledger.freedClosures + multiset{k});
      if closure.captures.Some? {
        ledger := ledger.(freedArrays := ledger.freedArrays + multiset{k});
        var captures := closure.captures.value;
        var i := 0;
        while i < |captures|
          invariant 0 <= i <= |captures|
          invariant ReleaseCells(Now(), captures[i..]) == goal
        {
          FaultStays(ReleaseCell(Now(), captures[i]), captures[i + 1..]);
          assert captures[i..][1..] == captures[i + 1..];
          ReleaseCellRef(captures[i]);
          i := i + 1;
        }
      }
    }
  }

  /** A fault is never forgotten, so a release that ends without one met none on the way. */
  lemma {:induction false} FaultStays(s: State, captures: seq<Option<nat>>)
    ensures s.fault ==> ReleaseCells(s, captures).fault
    decreases captures
  {
    if captures != [] {
      FaultStays(ReleaseCell(s, captures[0]), captures[1..]);
    }
  }
}
