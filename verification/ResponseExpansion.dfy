/**
 Recursive response-file expansion of src/cli.rs, bounded by a nesting depth, a
 size per file and shared byte and argument budgets. The files are a parameter;
 the reference is the tree of includes.
 */
module ResponseExpansion {
  import opened Wrappers
  import opened ResponseTokens

  /** A file's size in bytes and, when it is valid UTF-8, its text. */
  datatype File = File(size: nat, text: Option<string>)
  type Files = map<string, File>

  const MAX_RESPONSE_DEPTH := 8
  const MAX_RESPONSE_FILE_BYTES := 16 * 1024 * 1024
  const MAX_RESPONSE_ARGUMENTS := 1_000_000

  datatype Argument = Literal(text: string) | Include(path: string)

  /** `@@x` stands for the literal `@x`, `@path` for a file, and everything else, a lone `@` included, for itself. */
  function Read(argument: string): Argument {
    if |argument| >= 2 && argument[0] == '@' && argument[1] == '@' then Literal(argument[1..])
    else if |argument| >= 2 && argument[0] == '@' then Include(argument[1..])
    else Literal(argument)
  }

  /** A doubled sign escapes a literal; a sign before anything else but a second one names a file. */
  lemma ReadsArguments(x: string)
    ensures Read("@@" + x) == Literal("@" + x) && Read("@") == Literal("@")
    ensures x != "" && x[0] != '@' ==> Read("@" + x) == Include(x)
    ensures x == "" || x[0] != '@' ==> Read(x) == Literal(x)
  {
    assert ("@@" + x)[1..] == "@" + x && ("@" + x)[1..] == x;
  }

  // ----- the include tree -----

  datatype Tree = Leaf(text: string) | Node(path: string, size: nat, children: seq<Tree>)

  /** The words of a file, if it is there, within the size limit, valid and well formed. */
  function Words(files: Files, path: string, max: nat): Result<seq<string>> {
    if path !in files || files[path].size > max || files[path].text.None? then Err
    else Tokens(files[path].text.value)
  }

  /** The tree of an argument list at a nesting depth; it does not know about budgets. */
  function Build(files: Files, max: nat, args: seq<string>, depth: nat): Result<seq<Tree>>
    decreases MAX_RESPONSE_DEPTH + 1 - depth, |args|, 1
  {
    if depth > MAX_RESPONSE_DEPTH then Err
    else if args == [] then Ok([])
    else
      var first :- BuildOne(files, max, args[0], depth);
      var rest :- Build(files, max, args[1..], depth);
      Ok([first] + rest)
  }

  function BuildOne(files: Files, max: nat, argument: string, depth: nat): Result<Tree>
    requires depth <= MAX_RESPONSE_DEPTH
    decreases MAX_RESPONSE_DEPTH + 1 - depth, 0, 0
  {
    match Read(argument)
    case Literal(text) => Ok(Leaf(text))
    case Include(path) =>
      var words :- Words(files, path, max);
      var children :- Build(files, max, words, depth + 1);
      Ok(Node(path, files[path].size, children))
  }

  function Flatten(trees: seq<Tree>): seq<string> {
    if trees == [] then [] else FlattenOne(trees[0]) + Flatten(trees[1..])
  }

  function FlattenOne(tree: Tree): seq<string> {
    match tree
    case Leaf(text) => [text]
    case Node(_, _, children) => Flatten(children)
  }

  /** The bytes of every file occurrence in the tree. */
  function Bytes(trees: seq<Tree>): nat {
    if trees == [] then 0 else BytesOne(trees[0]) + Bytes(trees[1..])
  }

  function BytesOne(tree: Tree): nat {
    match tree
    case Leaf(_) => 0
    case Node(_, size, children) => size + Bytes(children)
  }

  // ----- budgets -----

  datatype Budget = Budget(bytes: nat, arguments: nat)

  predicate Affords(b: Budget, trees: seq<Tree>) { Bytes(trees) <= b.bytes && |Flatten(trees)| <= b.arguments }

  function Spend(b: Budget, trees: seq<Tree>): Budget
    requires Affords(b, trees)
  {
    Budget(b.bytes - Bytes(trees), b.arguments - |Flatten(trees)|)
  }

  /** What expansion from budget `b` must come to: the flattened tree and the budget spent on it, or an error. */
  predicate Outcome(built: Result<seq<Tree>>, b: Budget, b': Budget, r: Result<seq<string>>) {
    if built.Ok? && Affords(b, built.value) then r == Ok(Flatten(built.value)) && b' == Spend(b, built.value)
    else r == Err
  }

  class ResponseBudget {
    var remainingBytes: nat
    var remainingArguments: nat

    ghost function Left(): Budget
      reads this
    {
      Budget(remainingBytes, remainingArguments)
    }

    constructor (maxBytes: nat, maxArguments: nat)
      ensures Left() == Budget(maxBytes, maxArguments)
    {
      remainingBytes, remainingArguments := maxBytes, maxArguments;
    }

    method ConsumeBytes(bytes: nat) returns (ok: bool)
      modifies `remainingBytes
      ensures ok <==> bytes <= old(remainingBytes)
      ensures remainingBytes == if ok then old(remainingBytes) - bytes else old(remainingBytes)
    {
      if bytes > remainingBytes {
        return false;
      }
      remainingBytes := remainingBytes - bytes;
      ok := true;
    }

    method ConsumeArgument() returns (ok: bool)
      modifies `remainingArguments
      ensures ok <==> old(remainingArguments) > 0
      ensures remainingArguments == if ok then old(remainingArguments) - 1 else old(remainingArguments)
    {
      if remainingArguments == 0 {
        return false;
      }
      remainingArguments := remainingArguments - 1;
      ok := true;
    }
  }

  /** Read a file, taking one byte more than allowed at most, and charge what was read. */
  method ReadFile(files: Files, path: string, max: nat, budget: ResponseBudget) returns (r: Result<string>)
    modifies budget
    ensures budget.remainingArguments == old(budget.remainingArguments)
    ensures r.Ok? <==> path in files && files[path].text.Some? && files[path].size <= max && files[path].size <= old(budget.remainingBytes)
    ensures r.Ok? ==> r == Ok(files[path].text.value) && budget.remainingBytes == old(budget.remainingBytes) - files[path].size
  {
    if path !in files {
      return Err;
    }
    var limit := (if max <= budget.remainingBytes then max else budget.remainingBytes) + 1;
    var length := if files[path].size <= limit then files[path].size else limit;
    if length > max {
      return Err;
    }
    var ok := budget.ConsumeBytes(length);
    if !ok || files[path].text.None? {
      return Err;
    }
    r := Ok(files[path].text.value);
  }

  // ----- spending step by step -----

  lemma {:induction false} Additive(a: seq<Tree>, b: seq<Tree>)
    ensures Flatten(a + b) == Flatten(a) + Flatten(b) && Bytes(a + b) == Bytes(a) + Bytes(b)
  {
    if a == [] {
      assert a + b == b;
    } else {
      assert (a + b)[0] == a[0] && (a + b)[1..] == a[1..] + b;
      Additive(a[1..], b);
      assert FlattenOne(a[0]) + (Flatten(a[1..]) + Flatten(b)) == FlattenOne(a[0]) + Flatten(a[1..]) + Flatten(b);
    }
  }

  lemma SpendTwice(b: Budget, done: seq<Tree>, more: seq<Tree>)
    requires Affords(b, done)
    ensures Affords(b, done + more) == Affords(Spend(b, done), more)
    ensures Affords(b, done + more) ==> Spend(b, done + more) == Spend(Spend(b, done), more)
  {
    Additive(done, more);
  }

  function One(built: Result<Tree>): Result<seq<Tree>> {
    match built case Err => Err case Ok(tree) => Ok([tree])
  }

  function Join(done: seq<Tree>, rest: Result<seq<Tree>>): Result<seq<Tree>> {
    match rest case Err => Err case Ok(trees) => Ok(done + trees)
  }

  lemma BuildFirst(files: Files, max: nat, args: seq<string>, depth: nat, done: seq<Tree>)
    requires depth <= MAX_RESPONSE_DEPTH && args != []
    ensures Join(done, Build(files, max, args, depth)) ==
            match BuildOne(files, max, args[0], depth)
            case Err => Err
            case Ok(tree) => Join(done + [tree], Build(files, max, args[1..], depth))
  {
    if BuildOne(files, max, args[0], depth).Ok? && Build(files, max, args[1..], depth).Ok? {
      var tree, rest := BuildOne(files, max, args[0], depth).value, Build(files, max, args[1..], depth).value;
      assert done + ([tree] + rest) == done + [tree] + rest;
    }
  }

  /** One argument that cannot be built or paid for makes the whole list fail. */
  lemma FailsEarly(b: Budget, done: seq<Tree>, one: Result<seq<Tree>>, whole: Result<seq<Tree>>)
    requires Affords(b, done) && (one.Ok? ==> !Affords(Spend(b, done), one.value))
    requires whole.Ok? ==> one.Ok? && exists rest :: whole.value == done + (one.value + rest)
    ensures whole.Ok? ==> !Affords(b, whole.value)
  {
    if whole.Ok? {
      var rest :| whole.value == done + (one.value + rest);
      SpendTwice(b, done, one.value + rest);
      Additive(one.value, rest);
    }
  }

  /** A file node costs its own bytes and then what its children cost. */
  lemma NodeSpends(b: Budget, path: string, size: nat, children: seq<Tree>)
    ensures var node := [Node(path, size, children)];
            && Flatten(node) == Flatten(children)
            && Affords(b, node) == (size <= b.bytes && Affords(b.(bytes := b.bytes - size), children))
            && (Affords(b, node) ==> Spend(b, node) == Spend(b.(bytes := b.bytes - size), children))
  {
    var node := [Node(path, size, children)];
    assert node[0] == Node(path, size, children) && node[1..] == [];
    assert Flatten(children) + [] == Flatten(children);
    assert BytesOne(node[0]) == size + Bytes(children) && Bytes(node) == BytesOne(node[0]) + Bytes([]);
  }

  lemma LeafSpends(text: string)
    ensures Flatten([Leaf(text)]) == [text] && Bytes([Leaf(text)]) == 0
  {
    var leaf := [Leaf(text)];
    assert leaf[0] == Leaf(text) && leaf[1..] == [];
    assert Flatten(leaf) == FlattenOne(leaf[0]) + Flatten([]) && Bytes(leaf) == BytesOne(leaf[0]) + Bytes([]);
  }

  method ExpandOne(files: Files, argument: string, depth: nat, max: nat, budget: ResponseBudget) returns (r: Result<seq<string>>)
    requires depth <= MAX_RESPONSE_DEPTH
    modifies budget
    ensures Outcome(One(BuildOne(files, max, argument, depth)), old(budget.Left()), budget.Left(), r)
    decreases MAX_RESPONSE_DEPTH + 1 - depth, 0
  {
    match Read(argument) {
      case Literal(text) =>
        LeafSpends(text);
        var ok := budget.ConsumeArgument();
        if !ok {
          return Err;
        }
        r := Ok([text]);
      case Include(path) =>
        var source := ReadFile(files, path, max, budget);
        if source.Err? {
          ghost var built := BuildOne(files, max, argument, depth);
          if built.Ok? {
            NodeSpends(old(budget.Left()), path, built.value.size, built.value.children);
          }
          return Err;
        }
        var nested := Tokenize(source.value);
        if nested.Err? {
          return Err;
        }
        ghost var before := budget.Left();
        r := Expand(files, nested.value, depth + 1, max, budget);
        ghost var children := Build(files, max, nested.value, depth + 1);
        if children.Ok? {
          NodeSpends(old(budget.Left()), path, files[path].size, children.value);
        }
    }
  }

  /**
   Expansion succeeds exactly when the include tree exists within the depth and
   size limits and its bytes and leaves are within the budgets. It then returns
   the leaves in order, and the budgets have fallen by exactly what it used.
   */
  method Expand(files: Files, args: seq<string>, depth: nat, max: nat, budget: ResponseBudget) returns (r: Result<seq<string>>)
    modifies budget
    ensures Outcome(Build(files, max, args, depth), old(budget.Left()), budget.Left(), r)
    decreases MAX_RESPONSE_DEPTH + 1 - depth, 1
  {
    if depth > MAX_RESPONSE_DEPTH {
      return Err;
    }
    ghost var start, done: seq<Tree>, whole := budget.Left(), [], Build(files, max, args, depth);
    var expanded: seq<string>, i := [], 0;
    assert args[0..] == args && (whole.Ok? ==> [] + whole.value == whole.value);
    while i < |args|
      invariant 0 <= i <= |args|
      invariant whole == Join(done, Build(files, max, args[i..], depth))
      invariant Affords(start, done) && budget.Left() == Spend(start, done)
      invariant expanded == Flatten(done)
    {
      ghost var one := One(BuildOne(files, max, args[i], depth));
      assert args[i..][1..] == args[i + 1..];
      BuildFirst(files, max, args[i..], depth, done);
      var part := ExpandOne(files, args[i], depth, max, budget);
      if part.Err? {
        if whole.Ok? {
          ghost var rest := Build(files, max, args[i + 1..], depth).value;
          assert whole.value == done + one.value + rest == done + (one.value + rest);
        }
        FailsEarly(start, done, one, whole);
        return Err;
      }
      SpendTwice(start, done, one.value);
      Additive(done, one.value);
      expanded := expanded + part.value;
      done := done + one.value;
      i := i + 1;
    }
    assert whole.Ok? && whole.value == done;
    r := Ok(expanded);
  }

  // ----- the tree, declaratively -----

  function Height(trees: seq<Tree>): nat {
    if trees == [] then 0
    else
      var a, b := HeightOne(trees[0]), Height(trees[1..]);
      if a >= b then a else b
  }

  function HeightOne(tree: Tree): nat {
    match tree
    case Leaf(_) => 0
    case Node(_, _, children) => 1 + Height(children)
  }

  /** The trees are those of the arguments: leaves for literals, and for every include the words of its file. */
  predicate Shows(files: Files, max: nat, args: seq<string>, trees: seq<Tree>)
    decreases trees, 0
  {
    && |args| == |trees|
    && (args == [] || (ShowsOne(files, max, args[0], trees[0]) && Shows(files, max, args[1..], trees[1..])))
  }

  predicate ShowsOne(files: Files, max: nat, argument: string, tree: Tree)
    decreases tree
  {
    match tree
    case Leaf(text) => Read(argument) == Literal(text)
    case Node(path, size, children) =>
      && Read(argument) == Include(path)
      && Words(files, path, max).Ok?
      && size == files[path].size
      && Shows(files, max, Words(files, path, max).value, children)
  }

  lemma {:induction false} BuildShows(files: Files, max: nat, args: seq<string>, depth: nat)
    requires Build(files, max, args, depth).Ok?
    ensures var trees := Build(files, max, args, depth).value;
            Shows(files, max, args, trees) && depth + Height(trees) <= MAX_RESPONSE_DEPTH
    decreases MAX_RESPONSE_DEPTH + 1 - depth, |args|
  {
    if args != [] {
      var tree, rest := BuildOne(files, max, args[0], depth).value, Build(files, max, args[1..], depth).value;
      var trees := [tree] + rest;
      assert trees[0] == tree && trees[1..] == rest;
      BuildShows(files, max, args[1..], depth);
      if tree.Node? {
        BuildShows(files, max, Words(files, tree.path, max).value, depth + 1);
      }
    }
  }

  lemma {:induction false} ShowsBuilds(files: Files, max: nat, args: seq<string>, trees: seq<Tree>, depth: nat)
    requires Shows(files, max, args, trees) && depth + Height(trees) <= MAX_RESPONSE_DEPTH
    ensures Build(files, max, args, depth) == Ok(trees)
    decreases trees
  {
    if args != [] {
      var tree, rest := trees[0], trees[1..];
      assert trees == [tree] + rest;
      ShowsBuilds(files, max, args[1..], rest, depth);
      if tree.Node? {
        ShowsBuilds(files, max, Words(files, tree.path, max).value, tree.children, depth + 1);
      }
    }
  }

  /** There is at most one include tree, and it is built exactly when it is shallow enough. */
  lemma BuildsTheTree(files: Files, max: nat, args: seq<string>, depth: nat, trees: seq<Tree>)
    ensures Build(files, max, args, depth) == Ok(trees) <==>
            Shows(files, max, args, trees) && depth + Height(trees) <= MAX_RESPONSE_DEPTH
  {
    if Build(files, max, args, depth) == Ok(trees) {
      BuildShows(files, max, args, depth);
    }
    if Shows(files, max, args, trees) && depth + Height(trees) <= MAX_RESPONSE_DEPTH {
      ShowsBuilds(files, max, args, trees, depth);
    }
  }

  // ----- cycles -----

  /** Some argument includes a file of `loop`. */
  ghost predicate Enters(args: seq<string>, loop: set<string>) {
    exists i :: 0 <= i < |args| && Read(args[i]).Include? && Read(args[i]).path in loop
  }

  /** Every readable file of `loop` includes a file of `loop` again. */
  ghost predicate Cyclic(files: Files, max: nat, loop: set<string>) {
    forall path :: path in loop && Words(files, path, max).Ok? ==> Enters(Words(files, path, max).value, loop)
  }

  /** An argument list that reaches a cycle cannot be expanded, whatever the budgets. */
  lemma {:induction false} CyclesFail(files: Files, max: nat, args: seq<string>, depth: nat, loop: set<string>)
    requires Cyclic(files, max, loop) && Enters(args, loop)
    ensures Build(files, max, args, depth).Err?
    decreases MAX_RESPONSE_DEPTH + 1 - depth, |args|
  {
    if depth <= MAX_RESPONSE_DEPTH {
      if Read(args[0]).Include? && Read(args[0]).path in loop {
        var path := Read(args[0]).path;
        if Words(files, path, max).Ok? {
          CyclesFail(files, max, Words(files, path, max).value, depth + 1, loop);
        }
      } else {
        var i :| 0 <= i < |args| && Read(args[i]).Include? && Read(args[i]).path in loop;
        assert args[1..][i - 1] == args[i];
        CyclesFail(files, max, args[1..], depth, loop);
      }
    }
  }

  /** Expansion as the parser calls it: depth zero and the full budgets. */
  method ExpandResponseFiles(files: Files, args: seq<string>) returns (r: Result<seq<string>>)
    ensures var built := Build(files, MAX_RESPONSE_FILE_BYTES, args, 0);
            r == if built.Ok? && Affords(Budget(MAX_RESPONSE_FILE_BYTES, MAX_RESPONSE_ARGUMENTS), built.value)
                 then Ok(Flatten(built.value)) else Err
    ensures forall loop :: Cyclic(files, MAX_RESPONSE_FILE_BYTES, loop) && Enters(args, loop) ==> r.Err?
  {
    forall loop | Cyclic(files, MAX_RESPONSE_FILE_BYTES, loop) && Enters(args, loop)
      ensures Build(files, MAX_RESPONSE_FILE_BYTES, args, 0).Err?
    {
      CyclesFail(files, MAX_RESPONSE_FILE_BYTES, args, 0, loop);
    }
    var budget := new ResponseBudget(MAX_RESPONSE_FILE_BYTES, MAX_RESPONSE_ARGUMENTS);
    r := Expand(files, args, 0, MAX_RESPONSE_FILE_BYTES, budget);
  }
}
