/**
 Parsing with a duplicate-key policy, src/json.rs. The tree that comes out of
 the deserializer knows each number only by its index in the token list; the
 theorem is that every number kept is given back its own spelling, although
 discarded duplicates used up indices too.
 */
module JsonParse {
  import opened Wrappers
  import opened Pairs
  import opened JsonLexer
  import opened JsonDocuments
  import opened JsonGrammar
  import opened JsonScanning
  import JsonPointerText

  datatype Policy = Reject | First | Last

  const BY_TEXT: Keying<string> := Keying((a: string, b: string) => a == b, (s: string) => 0)

  /** The parse tree; a number is the position of its token. */
  datatype Parsed =
    | PNull
    | PBool(b: bool)
    | PNumber(index: nat)
    | PString(text: string)
    | PArray(items: seq<Parsed>)
    | PObject(members: seq<(string, Parsed)>)

  /** The JSON model; a number keeps its spelling, from which its kind is computed. */
  datatype Json =
    | JNull
    | JBool(b: bool)
    | JNumber(raw: string)
    | JString(text: string)
    | JArray(items: seq<Json>)
    | JObject(members: seq<(string, Json)>)

  /** Whether the deserializer takes a number; it refuses those beyond the range of a float. */
  type Accepts = string -> bool

  // ----- the visitor, threading the number index -----

  function Visit(accepts: Accepts, policy: Policy, doc: Doc, i: nat): Result<(Parsed, nat)>
    decreases doc
  {
    match doc
    case Null => Ok((PNull, i))
    case Bool(b) => Ok((PBool(b), i))
    case Number(n) => if accepts(Spell(n)) then Ok((PNumber(i), i + 1)) else Err
    case Text(q) => Ok((PString(q.text), i))
    case Array(items) =>
      var r :- VisitItems(accepts, policy, items, i);
      Ok((PArray(r.0), r.1))
    case Object(members) =>
      var r :- VisitMembers(accepts, policy, members, [], i);
      Ok((PObject(r.0), r.1))
  }

  function VisitItems(accepts: Accepts, policy: Policy, items: seq<Doc>, i: nat): Result<(seq<Parsed>, nat)>
    decreases items
  {
    if items == [] then Ok(([], i))
    else
      var first :- Visit(accepts, policy, items[0], i);
      var rest :- VisitItems(accepts, policy, items[1..], first.1);
      Ok(([first.0] + rest.0, rest.1))
  }

  function VisitMembers(accepts: Accepts, policy: Policy, members: seq<Member>, seen: seq<(string, Parsed)>, i: nat)
    : Result<(seq<(string, Parsed)>, nat)>
    decreases members
  {
    if members == [] then Ok((seen, i))
    else
      var r :- VisitMember(accepts, policy, members[0], seen, i);
      VisitMembers(accepts, policy, members[1..], r.0, r.1)
  }

  function VisitMember(accepts: Accepts, policy: Policy, m: Member, seen: seq<(string, Parsed)>, i: nat)
    : Result<(seq<(string, Parsed)>, nat)>
    decreases m
  {
    match m case Member(key, value) =>
      var duplicate := Position(BY_TEXT, seen, key.text) < |seen|;
      if duplicate && policy.Reject? then Err
      else
        var r :- Visit(accepts, policy, value, i);
        Ok((if duplicate && policy.First? then seen else Put(BY_TEXT, seen, key.text, r.0), r.1))
  }

  // ----- giving the numbers back -----

  function Convert(p: Parsed, tokens: seq<string>): Result<Json>
    decreases p
  {
    match p
    case PNull => Ok(JNull)
    case PBool(b) => Ok(JBool(b))
    case PNumber(index) => if index < |tokens| then Ok(JNumber(tokens[index])) else Err
    case PString(s) => Ok(JString(s))
    case PArray(items) =>
      var r :- ConvertItems(items, tokens);
      Ok(JArray(r))
    case PObject(members) =>
      var r :- ConvertMembers(members, tokens, []);
      Ok(JObject(r))
  }

  function ConvertItems(items: seq<Parsed>, tokens: seq<string>): Result<seq<Json>>
    decreases items
  {
    if items == [] then Ok([])
    else
      var first :- Convert(items[0], tokens);
      var rest :- ConvertItems(items[1..], tokens);
      Ok([first] + rest)
  }

  function ConvertMembers(members: seq<(string, Parsed)>, tokens: seq<string>, out: seq<(string, Json)>): Result<seq<(string, Json)>>
    decreases members
  {
    if members == [] then Ok(out)
    else
      var c :- ConvertMember(members[0], tokens);
      ConvertMembers(members[1..], tokens, Put(BY_TEXT, out, members[0].0, c))
  }

  function ConvertMember(e: (string, Parsed), tokens: seq<string>): Result<Json>
    decreases e
  {
    match e case (_, p) => Convert(p, tokens)
  }

  /** The whole pipeline on a text, given the syntax tree the deserializer walks for it. */
  function Parse(accepts: Accepts, policy: Policy, text: string, doc: Doc): Result<Json> {
    if JsonPointerText.Utf8Length(text) > JsonPointerText.MAX_INPUT_BYTES then Err
    else if CountTokens(text) > MAX_TOKENS then Err
    else
      var tokens := Numbers(text);
      var r :- Visit(accepts, policy, doc, 0);
      if r.1 != |tokens| then Err else Convert(r.0, tokens)
  }

  // ----- the meaning of a document under a policy, with no indices in it -----

  function Meaning(accepts: Accepts, policy: Policy, doc: Doc): Result<Json>
    decreases doc
  {
    match doc
    case Null => Ok(JNull)
    case Bool(b) => Ok(JBool(b))
    case Number(n) => if accepts(Spell(n)) then Ok(JNumber(Spell(n))) else Err
    case Text(q) => Ok(JString(q.text))
    case Array(items) =>
      var r :- MeaningItems(accepts, policy, items);
      Ok(JArray(r))
    case Object(members) =>
      var r :- MeaningMembers(accepts, policy, members, []);
      Ok(JObject(r))
  }

  function MeaningItems(accepts: Accepts, policy: Policy, items: seq<Doc>): Result<seq<Json>>
    decreases items
  {
    if items == [] then Ok([])
    else
      var first :- Meaning(accepts, policy, items[0]);
      var rest :- MeaningItems(accepts, policy, items[1..]);
      Ok([first] + rest)
  }

  function MeaningMembers(accepts: Accepts, policy: Policy, members: seq<Member>, seen: seq<(string, Json)>): Result<seq<(string, Json)>>
    decreases members
  {
    if members == [] then Ok(seen)
    else
      var r :- MeaningMember(accepts, policy, members[0], seen);
      MeaningMembers(accepts, policy, members[1..], r)
  }

  function MeaningMember(accepts: Accepts, policy: Policy, m: Member, seen: seq<(string, Json)>): Result<seq<(string, Json)>>
    decreases m
  {
    match m case Member(key, value) =>
      var duplicate := Position(BY_TEXT, seen, key.text) < |seen|;
      if duplicate && policy.Reject? then Err
      else
        var v :- Meaning(accepts, policy, value);
        Ok(if duplicate && policy.First? then seen else Put(BY_TEXT, seen, key.text, v))
  }

  // ----- they agree -----

  /** `out` is `members` with every value converted. */
  ghost predicate Converted(members: seq<(string, Parsed)>, tokens: seq<string>, out: seq<(string, Json)>) {
    && |members| == |out|
    && DistinctKeys(BY_TEXT, members)
    && forall k :: 0 <= k < |out| ==> out[k].0 == members[k].0 && Convert(members[k].1, tokens) == Ok(out[k].1)
  }

  lemma {:induction false} SamePosition(s: seq<(string, Parsed)>, t: seq<(string, Json)>, k: string)
    requires |s| == |t| && forall i :: 0 <= i < |s| ==> s[i].0 == t[i].0
    ensures Position(BY_TEXT, s, k) == Position(BY_TEXT, t, k)
  {
  }

  lemma ConvertedPut(members: seq<(string, Parsed)>, tokens: seq<string>, out: seq<(string, Json)>, k: string, p: Parsed, j: Json)
    requires Converted(members, tokens, out) && Convert(p, tokens) == Ok(j)
    ensures Converted(Put(BY_TEXT, members, k, p), tokens, Put(BY_TEXT, out, k, j))
  {
    SamePosition(members, out, k);
    PutKeepsDistinct(BY_TEXT, members, k, p);
  }

  /** Converting a parsed object inserts distinct keys, so it appends them. */
  lemma {:induction false} ConvertObject(members: seq<(string, Parsed)>, tokens: seq<string>, out: seq<(string, Json)>, n: nat)
    requires Converted(members, tokens, out) && n <= |out|
    ensures ConvertMembers(members[n..], tokens, out[..n]) == Ok(out)
    decreases |out| - n
  {
    if n == |out| {
      assert members[n..] == [] && out[..n] == out;
    } else {
      assert members[n..][1..] == members[n + 1..];
      assert ConvertMember(members[n], tokens) == Ok(out[n].1);
      assert Position(BY_TEXT, out[..n], out[n].0) == n;
      assert out[..n] + [out[n]] == out[..n + 1];
      ConvertObject(members, tokens, out, n + 1);
    }
  }

  /** The tokens from `i` on begin with `part`. */
  ghost predicate TokensAt(tokens: seq<string>, i: nat, part: seq<string>) {
    i + |part| <= |tokens| && tokens[i..i + |part|] == part
  }

  lemma TokensSplit(tokens: seq<string>, i: nat, a: seq<string>, b: seq<string>)
    requires TokensAt(tokens, i, a + b)
    ensures TokensAt(tokens, i, a) && TokensAt(tokens, i + |a|, b)
  {
    var w := tokens[i..i + |a + b|];
    assert tokens[i..i + |a|] == w[..|a|] == a;
    assert tokens[i + |a|..i + |a| + |b|] == w[|a|..] == b;
  }

  /** Visiting uses exactly the document's tokens, and what it keeps converts to the document's meaning. */
  lemma {:induction false} VisitMeans(accepts: Accepts, policy: Policy, doc: Doc, i: nat, tokens: seq<string>)
    requires TokensAt(tokens, i, NumbersIn(doc))
    ensures var r := Visit(accepts, policy, doc, i);
            if r.Err? then Meaning(accepts, policy, doc).Err?
            else r.value.1 == i + |NumbersIn(doc)| && Convert(r.value.0, tokens) == Meaning(accepts, policy, doc)
                 && Meaning(accepts, policy, doc).Ok?
    decreases doc
  {
    match doc {
      case Number(n) => assert tokens[i..i + 1][0] == tokens[i];
      case Array(items) => VisitItemsMeans(accepts, policy, items, i, tokens);
      case Object(members) =>
        VisitMembersMeans(accepts, policy, members, [], [], i, tokens);
        var r, m := VisitMembers(accepts, policy, members, [], i), MeaningMembers(accepts, policy, members, []);
        if r.Ok? {
          ConvertObject(r.value.0, tokens, m.value, 0);
          assert r.value.0[0..] == r.value.0;
        }
      case _ =>
    }
  }

  lemma {:induction false} VisitItemsMeans(accepts: Accepts, policy: Policy, items: seq<Doc>, i: nat, tokens: seq<string>)
    requires TokensAt(tokens, i, NumbersInItems(items))
    ensures var r := VisitItems(accepts, policy, items, i);
            if r.Err? then MeaningItems(accepts, policy, items).Err?
            else r.value.1 == i + |NumbersInItems(items)| && ConvertItems(r.value.0, tokens) == MeaningItems(accepts, policy, items)
                 && MeaningItems(accepts, policy, items).Ok?
    decreases items
  {
    if items != [] {
      TokensSplit(tokens, i, NumbersIn(items[0]), NumbersInItems(items[1..]));
      VisitMeans(accepts, policy, items[0], i, tokens);
      VisitItemsMeans(accepts, policy, items[1..], i + |NumbersIn(items[0])|, tokens);
    }
  }

  lemma {:induction false} VisitMembersMeans(accepts: Accepts, policy: Policy, members: seq<Member>,
                                             seen: seq<(string, Parsed)>, out: seq<(string, Json)>, i: nat, tokens: seq<string>)
    requires TokensAt(tokens, i, NumbersInMembers(members)) && Converted(seen, tokens, out)
    ensures var r, m := VisitMembers(accepts, policy, members, seen, i), MeaningMembers(accepts, policy, members, out);
            if r.Err? then m.Err?
            else r.value.1 == i + |NumbersInMembers(members)| && m.Ok? && Converted(r.value.0, tokens, m.value)
    decreases members
  {
    if members != [] {
      TokensSplit(tokens, i, NumbersInMember(members[0]), NumbersInMembers(members[1..]));
      VisitMemberMeans(accepts, policy, members[0], seen, out, i, tokens);
      var r, m := VisitMember(accepts, policy, members[0], seen, i), MeaningMember(accepts, policy, members[0], out);
      if r.Ok? {
        VisitMembersMeans(accepts, policy, members[1..], r.value.0, m.value, r.value.1, tokens);
      }
    }
  }

  lemma {:induction false} VisitMemberMeans(accepts: Accepts, policy: Policy, member: Member,
                                            seen: seq<(string, Parsed)>, out: seq<(string, Json)>, i: nat, tokens: seq<string>)
    requires TokensAt(tokens, i, NumbersInMember(member)) && Converted(seen, tokens, out)
    ensures var r, m := VisitMember(accepts, policy, member, seen, i), MeaningMember(accepts, policy, member, out);
            if r.Err? then m.Err?
            else r.value.1 == i + |NumbersInMember(member)| && m.Ok? && Converted(r.value.0, tokens, m.value)
    decreases member
  {
    match member case Member(key, value) =>
      SamePosition(seen, out, key.text);
      VisitMeans(accepts, policy, value, i, tokens);
      var r, v := Visit(accepts, policy, value, i), Meaning(accepts, policy, value);
      if r.Ok? {
        ConvertedPut(seen, tokens, out, key.text, r.value.0, v.value);
      }
  }

  /**
   Parsing a text gives the meaning under the policy of the document it denotes:
   the number accounting never fails, and each number kept has its own spelling.
   */
  lemma ParsingGivesTheMeaning(accepts: Accepts, policy: Policy, text: string, doc: Doc)
    requires Denotes(text, doc)
    ensures Parse(accepts, policy, text, doc) ==
            if JsonPointerText.Utf8Length(text) > JsonPointerText.MAX_INPUT_BYTES || TokensIn(doc) > MAX_TOKENS then Err
            else Meaning(accepts, policy, doc)
  {
    ScannerFindsTheNumbers(text, doc);
    LimitCountsTheTokens(text, doc);
    VisitMeans(accepts, policy, doc, 0, NumbersIn(doc));
  }

  // ----- what the policies mean -----

  /** The member a policy keeps for a name: the first or the last that has it. */
  function Chosen(policy: Policy, members: seq<Member>, name: string): Option<Doc> {
    if members == [] then None
    else if policy.Last? then
      var last := members[|members| - 1];
      if last.key.text == name then Some(last.value) else Chosen(policy, members[..|members| - 1], name)
    else if members[0].key.text == name then Some(members[0].value)
    else Chosen(policy, members[1..], name)
  }

  lemma {:induction false} MembersSnoc(accepts: Accepts, policy: Policy, members: seq<Member>, m: Member, seen: seq<(string, Json)>)
    ensures MeaningMembers(accepts, policy, members + [m], seen) ==
            match MeaningMembers(accepts, policy, members, seen)
            case Err => Err
            case Ok(r) => MeaningMember(accepts, policy, m, r)
    decreases members
  {
    if members == [] {
      assert [m][0] == m && [m][1..] == [];
      assert members + [m] == [m];
    } else {
      var all := members + [m];
      assert all[0] == members[0] && all[1..] == members[1..] + [m];
      var r := MeaningMember(accepts, policy, members[0], seen);
      if r.Ok? {
        MembersSnoc(accepts, policy, members[1..], m, r.value);
      }
    }
  }

  /** Under `First` and `Last` an object's member is the chosen one's meaning, and only names that occur are members. */
  lemma {:induction false} PolicyChooses(accepts: Accepts, policy: Policy, members: seq<Member>, name: string)
    requires !policy.Reject? && MeaningMembers(accepts, policy, members, []).Ok?
    ensures var r := MeaningMembers(accepts, policy, members, []).value;
            && DistinctKeys(BY_TEXT, r)
            && match Chosen(policy, members, name)
               case None => Lookup(BY_TEXT, r, name).None?
               case Some(v) => Meaning(accepts, policy, v).Ok? && Lookup(BY_TEXT, r, name) == Some(Meaning(accepts, policy, v).value)
    decreases |members|
  {
    if members != [] {
      var init, last := members[..|members| - 1], members[|members| - 1];
      assert members == init + [last];
      MembersSnoc(accepts, policy, init, last, []);
      PolicyChooses(accepts, policy, init, name);
      PolicyChooses(accepts, policy, init, last.key.text);
      ChosenSnoc(policy, init, last, name);
      ChosenSnoc(policy, init, last, last.key.text);
      var r := MeaningMembers(accepts, policy, init, []).value;
      LastMember(accepts, policy, last, r, name);
    }
  }

  lemma LastMember(accepts: Accepts, policy: Policy, m: Member, r: seq<(string, Json)>, name: string)
    requires !policy.Reject? && DistinctKeys(BY_TEXT, r) && MeaningMember(accepts, policy, m, r).Ok?
    ensures Meaning(accepts, policy, m.value).Ok?
    ensures var t := MeaningMember(accepts, policy, m, r).value;
            && DistinctKeys(BY_TEXT, t)
            && Lookup(BY_TEXT, t, name) ==
               if m.key.text == name && !(policy.First? && Lookup(BY_TEXT, r, name).Some?)
               then Some(Meaning(accepts, policy, m.value).value) else Lookup(BY_TEXT, r, name)
  {
    match m case Member(key, value) =>
      var v := Meaning(accepts, policy, value);
      if v.Ok? {
        LookupAfterPut(BY_TEXT, r, key.text, v.value, name);
        PutKeepsDistinct(BY_TEXT, r, key.text, v.value);
        assert BY_TEXT.same(key.text, name) == (key.text == name);
      }
  }

  lemma {:induction false} ChosenSnoc(policy: Policy, members: seq<Member>, m: Member, name: string)
    ensures Chosen(policy, members + [m], name) ==
            if m.key.text == name && (policy.Last? || Chosen(policy, members, name).None?) then Some(m.value)
            else Chosen(policy, members, name)
  {
    if policy.Last? {
      assert (members + [m])[..|members|] == members;
    } else if members == [] {
      assert members + [m] == [m];
    } else {
      assert (members + [m])[0] == members[0] && (members + [m])[1..] == members[1..] + [m];
      ChosenSnoc(policy, members[1..], m, name);
    }
  }

  // ----- when parsing succeeds -----

  ghost predicate AllAccepted(accepts: Accepts, numbers: seq<string>) {
    forall k :: 0 <= k < |numbers| ==> accepts(numbers[k])
  }

  lemma AcceptedSplit(accepts: Accepts, a: seq<string>, b: seq<string>)
    ensures AllAccepted(accepts, a + b) <==> AllAccepted(accepts, a) && AllAccepted(accepts, b)
  {
    if AllAccepted(accepts, a + b) {
      assert forall k :: 0 <= k < |a| ==> a[k] == (a + b)[k];
      assert forall k :: 0 <= k < |b| ==> b[k] == (a + b)[|a| + k];
    }
  }

  /** No object of the document, at any depth, repeats a key or has one of `seen`. */
  ghost predicate NoRepeats(doc: Doc)
    decreases doc
  {
    match doc
    case Array(items) => NoRepeatsInItems(items)
    case Object(members) => NoRepeatsInMembers(members, {})
    case _ => true
  }

  ghost predicate NoRepeatsInItems(items: seq<Doc>)
    decreases items
  {
    items == [] || (NoRepeats(items[0]) && NoRepeatsInItems(items[1..]))
  }

  ghost predicate NoRepeatsInMembers(members: seq<Member>, seen: set<string>)
    decreases members
  {
    members == [] ||
    (NoRepeatsInMember(members[0], seen) && NoRepeatsInMembers(members[1..], seen + {members[0].key.text}))
  }

  ghost predicate NoRepeatsInMember(m: Member, seen: set<string>)
    decreases m
  {
    match m case Member(key, value) => key.text !in seen && NoRepeats(value)
  }

  ghost function Names(r: seq<(string, Json)>): set<string> { set i | 0 <= i < |r| :: r[i].0 }

  lemma NamesPut(r: seq<(string, Json)>, k: string, v: Json)
    ensures Names(Put(BY_TEXT, r, k, v)) == Names(r) + {k}
    ensures k in Names(r) <==> Position(BY_TEXT, r, k) < |r|
  {
    var t := Put(BY_TEXT, r, k, v);
    assert t[Position(BY_TEXT, r, k)].0 == k;
    forall x | x in Names(r) + {k} ensures x in Names(t) {
      if x in Names(r) {
        var i :| 0 <= i < |r| && r[i].0 == x;
        assert t[i].0 == x;
      }
    }
    assert Names(t) <= Names(r) + {k};
  }

  /** A document parses exactly when its numbers are accepted and, under `Reject`, no object in it repeats a key. */
  lemma {:induction false} ParsesExactlyWhen(accepts: Accepts, policy: Policy, doc: Doc)
    ensures Meaning(accepts, policy, doc).Ok? <==>
            AllAccepted(accepts, NumbersIn(doc)) && (policy.Reject? ==> NoRepeats(doc))
    decreases doc
  {
    match doc {
      case Number(n) => assert NumbersIn(doc)[0] == Spell(n);
      case Array(items) => ItemsParseWhen(accepts, policy, items);
      case Object(members) =>
        MembersParseWhen(accepts, policy, members, []);
        assert Names([]) == {};
      case _ =>
    }
  }

  lemma {:induction false} ItemsParseWhen(accepts: Accepts, policy: Policy, items: seq<Doc>)
    ensures MeaningItems(accepts, policy, items).Ok? <==>
            AllAccepted(accepts, NumbersInItems(items)) && (policy.Reject? ==> NoRepeatsInItems(items))
    decreases items
  {
    if items != [] {
      ParsesExactlyWhen(accepts, policy, items[0]);
      ItemsParseWhen(accepts, policy, items[1..]);
      AcceptedSplit(accepts, NumbersIn(items[0]), NumbersInItems(items[1..]));
    }
  }

  lemma {:induction false} MembersParseWhen(accepts: Accepts, policy: Policy, members: seq<Member>, seen: seq<(string, Json)>)
    ensures MeaningMembers(accepts, policy, members, seen).Ok? <==>
            AllAccepted(accepts, NumbersInMembers(members)) && (policy.Reject? ==> NoRepeatsInMembers(members, Names(seen)))
    decreases members
  {
    if members != [] {
      MemberParsesWhen(accepts, policy, members[0], seen);
      AcceptedSplit(accepts, NumbersInMember(members[0]), NumbersInMembers(members[1..]));
      var r := MeaningMember(accepts, policy, members[0], seen);
      if r.Ok? {
        MembersParseWhen(accepts, policy, members[1..], r.value);
      }
    }
  }

  lemma {:induction false} MemberParsesWhen(accepts: Accepts, policy: Policy, m: Member, seen: seq<(string, Json)>)
    ensures var r := MeaningMember(accepts, policy, m, seen);
            && (r.Ok? <==> AllAccepted(accepts, NumbersInMember(m)) && (policy.Reject? ==> NoRepeatsInMember(m, Names(seen))))
            && (r.Ok? ==> Names(r.value) == Names(seen) + {m.key.text})
    decreases m
  {
    match m case Member(key, value) =>
      ParsesExactlyWhen(accepts, policy, value);
      var v := Meaning(accepts, policy, value);
      NamesPut(seen, key.text, if v.Ok? then v.value else JNull);
  }
}
