/**
 JSON Pointer (RFC 6901) over values, src/json.rs. The in-place operations take
 the document they are given and return the document they leave behind, also
 when they fail, so that "an error changes nothing" is a theorem about them.
 */
module JsonPointer {
  import Arithmetic
  import opened Wrappers
  import opened Pairs
  import opened Values

  /** Documents are looked up by name, and a string key equals only itself. */
  const BY_NAME: Keying<Value> := Keying((a: Value, b: Value) => a == b, (v: Value) => 0)

  type Entries = seq<(Value, Value)>

  function Slot(entries: Entries, name: string): (i: nat)
    ensures i <= |entries|
  {
    Position(BY_NAME, entries, Str(name))
  }

  // ----- array indices -----

  predicate IsDigits(s: string) {
    s != [] && forall i :: 0 <= i < |s| ==> '0' <= s[i] <= '9'
  }

  function Decimal(s: string): nat
    requires forall i :: 0 <= i < |s| ==> '0' <= s[i] <= '9'
  {
    if s == [] then 0 else 10 * Decimal(s[..|s| - 1]) + (s[|s| - 1] as int - '0' as int)
  }

  /** Rust's `usize` parser: a leading plus is accepted, a minus is not. */
  function ParseUsize(token: string): Option<nat> {
    var digits := if token != [] && token[0] == '+' then token[1..] else token;
    if IsDigits(digits) && Decimal(digits) < Arithmetic.TWO_64 then Some(Decimal(digits)) else None
  }

  predicate Canonical(token: string) {
    token != [] && !(|token| > 1 && token[0] == '0')
  }

  /** The index a token names in an array; `Ok(length)` is the append position. */
  function PointerIndex(token: string, length: nat, allowAppend: bool): Result<nat> {
    if allowAppend && token == "-" then Ok(length)
    else if !Canonical(token) then Err
    else match ParseUsize(token)
      case None => Err
      case Some(index) => if index >= length then Err else Ok(index)
  }

  /** The index `add` inserts at: anything up to and including the length. */
  function InsertIndex(token: string, length: nat): Result<nat> {
    if token == "-" then Ok(length)
    else match ParseUsize(token)
      case None => Err
      case Some(index) => if !Canonical(token) || index > length then Err else Ok(index)
  }

  // ----- the operations on tokens -----

  function PointerGet(v: Value, tokens: seq<string>): Result<Value> {
    if tokens == [] then Ok(v)
    else match v
      case Map(_, entries) =>
        var i := Slot(entries, tokens[0]);
        if i < |entries| then PointerGet(entries[i].1, tokens[1..]) else Err
      case List(items) =>
        var index :- PointerIndex(tokens[0], |items|, false);
        PointerGet(items[index], tokens[1..])
      case _ => Err
  }

  /** What an in-place operation leaves: the document, and what it returned. */
  datatype Done<+T> = Done(doc: Value, result: Result<T>)

  function PointerSet(v: Value, tokens: seq<string>, x: Value): Done<()> {
    if tokens == [] then Done(x, Ok(()))
    else match v
      case Map(seed, entries) =>
        if |tokens| == 1 then Done(Map(seed, Put(BY_NAME, entries, Str(tokens[0]), x)), Ok(()))
        else
          var i := Slot(entries, tokens[0]);
          if i == |entries| then Done(v, Err)
          else
            var inner := PointerSet(entries[i].1, tokens[1..], x);
            Done(Map(seed, entries[i := (entries[i].0, inner.doc)]), inner.result)
      case List(items) =>
        (match PointerIndex(tokens[0], |items|, |tokens| == 1)
         case Err => Done(v, Err)
         case Ok(index) =>
           if index == |items| then Done(List(items + [x]), Ok(()))
           else if |tokens| == 1 then Done(List(items[index := x]), Ok(()))
           else
             var inner := PointerSet(items[index], tokens[1..], x);
             Done(List(items[index := inner.doc]), inner.result))
      case _ => Done(v, Err)
  }

  function PointerAdd(v: Value, tokens: seq<string>, x: Value): Done<()> {
    if tokens == [] then Done(x, Ok(()))
    else if |tokens| == 1 then
      match v
      case Map(seed, entries) => Done(Map(seed, Put(BY_NAME, entries, Str(tokens[0]), x)), Ok(()))
      case List(items) =>
        (match InsertIndex(tokens[0], |items|)
         case Err => Done(v, Err)
         case Ok(index) => Done(List(items[..index] + [x] + items[index..]), Ok(())))
      case _ => Done(v, Err)
    else
      match v
      case Map(seed, entries) =>
        var i := Slot(entries, tokens[0]);
        if i == |entries| then Done(v, Err)
        else
          var inner := PointerAdd(entries[i].1, tokens[1..], x);
          Done(Map(seed, entries[i := (entries[i].0, inner.doc)]), inner.result)
      case List(items) =>
        (match PointerIndex(tokens[0], |items|, false)
         case Err => Done(v, Err)
         case Ok(index) =>
           var inner := PointerAdd(items[index], tokens[1..], x);
           Done(List(items[index := inner.doc]), inner.result))
      case _ => Done(v, Err)
  }

  function PointerRemove(v: Value, tokens: seq<string>): Done<Value> {
    if tokens == [] then Done(v, Err)
    else match v
      case Map(seed, entries) =>
        var i := Slot(entries, tokens[0]);
        if i == |entries| then Done(v, Err)
        else if |tokens| == 1 then
          Done(Map(seed, Delete(BY_NAME, entries, Str(tokens[0]))), Ok(entries[i].1))
        else
          var inner := PointerRemove(entries[i].1, tokens[1..]);
          Done(Map(seed, entries[i := (entries[i].0, inner.doc)]), inner.result)
      case List(items) =>
        (match PointerIndex(tokens[0], |items|, false)
         case Err => Done(v, Err)
         case Ok(index) =>
           if |tokens| == 1 then Done(List(items[..index] + items[index + 1..]), Ok(items[index]))
           else
             var inner := PointerRemove(items[index], tokens[1..]);
             Done(List(items[index := inner.doc]), inner.result))
      case _ => Done(v, Err)
  }

  // ----- resolved paths -----

  /** One step of a location: a member by name or an element by number. */
  datatype Step = Key(name: string) | Index(at: nat)

  type Path = seq<Step>

  /** The child a step leads to. */
  function Child(v: Value, step: Step): Option<Value> {
    match (v, step)
    case (Map(_, entries), Key(name)) =>
      var i := Slot(entries, name);
      if i < |entries| then Some(entries[i].1) else None
    case (List(items), Index(at)) => if at < |items| then Some(items[at]) else None
    case _ => None
  }

  /** The same container with the child at `step` replaced. */
  function WithChild(v: Value, step: Step, x: Value): Value
    requires Child(v, step).Some?
  {
    match v
    case Map(seed, entries) =>
      var i := Slot(entries, step.name);
      Map(seed, entries[i := (entries[i].0, x)])
    case List(items) => List(items[step.at := x])
  }

  function GetAt(v: Value, p: Path): Option<Value> {
    if p == [] then Some(v)
    else match Child(v, p[0])
      case None => None
      case Some(c) => GetAt(c, p[1..])
  }

  /** The three edits of a container. */
  datatype Edit = Assign | Insert | Erase

  /** The edit of `v` at its own child `step`; `None` when the container has no such place. */
  function EditChild(v: Value, edit: Edit, step: Step, x: Value): Option<Value> {
    match (v, step)
    case (Map(seed, entries), Key(name)) =>
      if edit.Erase? then
        if Slot(entries, name) < |entries| then Some(Map(seed, Delete(BY_NAME, entries, Str(name)))) else None
      else Some(Map(seed, Put(BY_NAME, entries, Str(name), x)))
    case (List(items), Index(at)) =>
      (match edit
       case Assign =>
         if at < |items| then Some(List(items[at := x]))
         else if at == |items| then Some(List(items + [x])) else None
       case Insert => if at <= |items| then Some(List(items[..at] + [x] + items[at..])) else None
       case Erase => if at < |items| then Some(List(items[..at] + items[at + 1..])) else None)
    case _ => None
  }

  /** The edit of `v` at the end of a non-empty path. */
  function EditAt(v: Value, edit: Edit, p: Path, x: Value): Option<Value>
    requires p != []
  {
    if |p| == 1 then EditChild(v, edit, p[0], x)
    else match Child(v, p[0])
      case None => None
      case Some(c) =>
        match EditAt(c, edit, p[1..], x)
        case None => None
        case Some(c') => Some(WithChild(v, p[0], c'))
  }

  function SetAt(v: Value, p: Path, x: Value): Option<Value> {
    if p == [] then Some(x) else EditAt(v, Assign, p, x)
  }

  function AddAt(v: Value, p: Path, x: Value): Option<Value> {
    if p == [] then Some(x) else EditAt(v, Insert, p, x)
  }

  function RemoveAt(v: Value, p: Path): Option<Value> {
    if p == [] then None else EditAt(v, Erase, p, Unit)
  }

  // ----- tokens resolve to paths, and every operation is its resolved form -----

  /** The step a token names in `v`, when it is the last one or not. */
  function ResolveStep(v: Value, token: string, edit: Option<Edit>, last: bool): Result<Step> {
    match v
    case Map(_, entries) => Ok(Key(token))
    case List(items) =>
      var at :- if last && edit == Some(Insert) then InsertIndex(token, |items|)
                else PointerIndex(token, |items|, last && edit == Some(Assign));
      Ok(Index(at))
    case _ => Err
  }

  function Resolve(v: Value, tokens: seq<string>, edit: Option<Edit>): Result<Path> {
    if tokens == [] then Ok([])
    else
      var step :- ResolveStep(v, tokens[0], edit, |tokens| == 1);
      if |tokens| == 1 then Ok([step])
      else match Child(v, step)
        case None => Err
        case Some(c) =>
          var rest :- Resolve(c, tokens[1..], edit);
          Ok([step] + rest)
  }

  /** Writing a child back unchanged is no change. */
  lemma WithChildSame(v: Value, step: Step)
    requires Child(v, step).Some?
    ensures WithChild(v, step, Child(v, step).value) == v
  {
  }

  lemma {:induction false} GetResolves(v: Value, tokens: seq<string>)
    ensures PointerGet(v, tokens) ==
            match Resolve(v, tokens, None)
            case Err => Err
            case Ok(p) => (match GetAt(v, p) case Some(x) => Ok(x) case None => Err)
  {
    if tokens != [] && (v.Map? || v.List?) {
      var step := ResolveStep(v, tokens[0], None, |tokens| == 1);
      if step.Ok? && Child(v, step.value).Some? {
        GetResolves(Child(v, step.value).value, tokens[1..]);
      }
    }
  }

  /** A set is the assignment at the place its tokens resolve to; a failed set leaves the document as it was. */
  lemma {:induction false} SetResolves(v: Value, tokens: seq<string>, x: Value)
    ensures PointerSet(v, tokens, x) ==
            match Resolve(v, tokens, Some(Assign))
            case Err => Done(v, Err)
            case Ok(p) => (match SetAt(v, p, x) case Some(v') => Done(v', Ok(())) case None => Done(v, Err))
  {
    if |tokens| > 1 && (v.Map? || v.List?) {
      var step := ResolveStep(v, tokens[0], Some(Assign), false);
      if step.Ok? && Child(v, step.value).Some? {
        SetResolves(Child(v, step.value).value, tokens[1..], x);
        WithChildSame(v, step.value);
      }
    }
  }

  lemma {:induction false} AddResolves(v: Value, tokens: seq<string>, x: Value)
    ensures PointerAdd(v, tokens, x) ==
            match Resolve(v, tokens, Some(Insert))
            case Err => Done(v, Err)
            case Ok(p) => (match AddAt(v, p, x) case Some(v') => Done(v', Ok(())) case None => Done(v, Err))
  {
    if |tokens| > 1 && (v.Map? || v.List?) {
      var step := ResolveStep(v, tokens[0], Some(Insert), false);
      if step.Ok? && Child(v, step.value).Some? {
        AddResolves(Child(v, step.value).value, tokens[1..], x);
        WithChildSame(v, step.value);
      }
    }
  }

  /** A removal returns what was there. */
  lemma {:induction false} RemoveResolves(v: Value, tokens: seq<string>)
    ensures PointerRemove(v, tokens) ==
            match Resolve(v, tokens, Some(Erase))
            case Err => Done(v, Err)
            case Ok(p) =>
              (match (RemoveAt(v, p), GetAt(v, p))
               case (Some(v'), Some(x)) => Done(v', Ok(x))
               case _ => Done(v, Err))
  {
    if |tokens| > 1 && (v.Map? || v.List?) {
      var step := ResolveStep(v, tokens[0], Some(Erase), false);
      if step.Ok? && Child(v, step.value).Some? {
        RemoveResolves(Child(v, step.value).value, tokens[1..]);
        WithChildSame(v, step.value);
      }
    }
  }
}
