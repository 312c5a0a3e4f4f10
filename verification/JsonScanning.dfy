/** What the scanners find in a text that denotes a document: its numbers in order, and as many tokens as its syntax has. */
module JsonScanning {
  import opened Wrappers
  import opened JsonLexer
  import opened JsonDocuments
  import opened JsonGrammar

  /** The number spellings of a document, in document order, duplicates included. */
  function NumbersIn(doc: Doc): seq<string> {
    match doc
    case Number(n) => [Spell(n)]
    case Array(items) => NumbersInItems(items)
    case Object(members) => NumbersInMembers(members)
    case _ => []
  }

  function NumbersInItems(items: seq<Doc>): seq<string> {
    if items == [] then [] else NumbersIn(items[0]) + NumbersInItems(items[1..])
  }

  function NumbersInMembers(members: seq<Member>): seq<string> {
    if members == [] then [] else NumbersInMember(members[0]) + NumbersInMembers(members[1..])
  }

  function NumbersInMember(m: Member): seq<string> {
    match m case Member(_, value) => NumbersIn(value)
  }

  // ----- how far a number and a string reach -----

  /** What may follow a number: the end, or a character that continues none. */
  predicate Delimited(rest: string) { rest == [] || !InNumber(rest[0]) }

  lemma {:induction false} DigitsRun(d: string, rest: string)
    requires AllDigits(d) && (rest == [] || !IsDigit(rest[0]))
    ensures DigitsLength(d + rest) == |d|
  {
    if d != [] {
      assert (d + rest)[1..] == d[1..] + rest;
      DigitsRun(d[1..], rest);
    } else {
      assert d + rest == rest;
    }
  }

  lemma ExponentReach(n: Spelling, rest: string)
    requires ValidSpelling(n) && Delimited(rest)
    ensures ExponentLength(ExponentText(n) + rest) == |ExponentText(n)|
  {
    match n.exponent {
      case None => assert ExponentText(n) + rest == rest;
      case Some(e) =>
        var s := ExponentText(n) + rest;
        assert s[1 + |e.sign|..] == e.digits + rest;
        DigitsRun(e.digits, rest);
        assert |s| > 1 && (e.sign == "" ==> s[1] == e.digits[0]);
    }
  }

  lemma FractionRun(d: string, tail: string)
    requires AllDigits(d) && (tail == [] || (!IsDigit(tail[0]) && tail[0] != '.'))
    ensures var f := if d == [] then "" else "." + d; FractionLength(f + tail) == |f|
  {
    if d == [] {
      assert "" + tail == tail;
    } else {
      var s := "." + d + tail;
      assert s[1..] == d + tail;
      DigitsRun(d, tail);
    }
  }

  lemma FractionReach(n: Spelling, rest: string)
    requires ValidSpelling(n) && Delimited(rest)
    ensures FractionLength(FractionText(n) + (ExponentText(n) + rest)) == |FractionText(n)|
  {
    var tail := ExponentText(n) + rest;
    assert tail == [] || (!IsDigit(tail[0]) && tail[0] != '.');
    FractionRun(n.fraction, tail);
  }

  lemma IntegerReach(n: Spelling, tail: string)
    requires ValidSpelling(n) && (tail == [] || !IsDigit(tail[0]))
    ensures IntegerLength(SignText(n) + n.whole + tail) == |SignText(n)| + |n.whole|
  {
    var s := SignText(n) + n.whole + tail;
    assert s[|SignText(n)|..] == n.whole + tail;
    assert s[|SignText(n)|] == n.whole[0];
    DigitsRun(n.whole, tail);
  }

  lemma ThreeParts(a: string, b: string, c: string, rest: string)
    ensures a + b + c + rest == a + (b + (c + rest))
    ensures (a + (b + (c + rest)))[|a|..] == b + (c + rest)
    ensures (a + (b + (c + rest)))[|a| + |b|..] == c + rest
  {
  }

  lemma NumberFromParts(s: string, i: nat, f: nat, e: nat)
    requires s != [] && i + f <= |s| && IntegerLength(s) == i && FractionLength(s[i..]) == f && ExponentLength(s[i + f..]) == e
    ensures NumberLength(s) == i + f + e
  {
  }

  lemma NumberOfParts(a: string, b: string, c: string, rest: string)
    requires a != [] && IntegerLength(a + (b + (c + rest))) == |a|
    requires FractionLength(b + (c + rest)) == |b| && ExponentLength(c + rest) == |c|
    ensures NumberLength(a + b + c + rest) == |a + b + c|
  {
    ThreeParts(a, b, c, rest);
    NumberFromParts(a + (b + (c + rest)), |a|, |b|, |c|);
  }

  lemma NumberReach(n: Spelling, rest: string)
    requires ValidSpelling(n) && Delimited(rest)
    ensures NumberLength(Spell(n) + rest) == |Spell(n)|
  {
    AfterWhole(n, rest);
    IntegerReach(n, FractionText(n) + (ExponentText(n) + rest));
    FractionReach(n, rest);
    ExponentReach(n, rest);
    NumberOfParts(SignText(n) + n.whole, FractionText(n), ExponentText(n), rest);
  }

  lemma AfterWhole(n: Spelling, rest: string)
    requires ValidSpelling(n) && Delimited(rest)
    ensures var tail := FractionText(n) + (ExponentText(n) + rest); tail == [] || !IsDigit(tail[0])
  {
  }

  lemma {:induction false} BodyReach(b: string, rest: string)
    requires ValidBody(b)
    ensures BodyLength(b + ("\"" + rest)) == |b| + 1
    ensures QuotedLength(b + ("\"" + rest), false) == |b| + 1
  {
    var s := b + ("\"" + rest);
    if b == [] {
      assert s == "\"" + rest;
    } else if b[0] == '\\' {
      assert s[2..] == b[2..] + ("\"" + rest);
      assert s[1..][1..] == s[2..];
      BodyReach(b[2..], rest);
    } else {
      assert s[1..] == b[1..] + ("\"" + rest);
      BodyReach(b[1..], rest);
    }
  }

  // ----- the numbers found -----

  predicate Inert(c: char) { c != '"' && c != '-' && !IsDigit(c) }

  lemma {:induction false} SkipInert(s: string, rest: string)
    requires forall i :: 0 <= i < |s| ==> Inert(s[i])
    ensures Numbers(s + rest) == Numbers(rest)
  {
    if s == [] {
      assert s + rest == rest;
    } else {
      assert (s + rest)[1..] == s[1..] + rest;
      SkipInert(s[1..], rest);
    }
  }

  lemma SkipQuotedText(body: string, rest: string)
    requires ValidBody(body)
    ensures Numbers("\"" + (body + ("\"" + rest))) == Numbers(rest)
  {
    var s := "\"" + (body + ("\"" + rest));
    BodyReach(body, rest);
    assert s[1..] == body + ("\"" + rest);
    assert Drop(s, |body| + 2) == rest;
  }

  lemma TakeNumber(n: Spelling, rest: string)
    requires ValidSpelling(n) && Delimited(rest)
    ensures Numbers(Spell(n) + rest) == [Spell(n)] + Numbers(rest)
  {
    var s := Spell(n) + rest;
    NumberReach(n, rest);
    assert s[0] == if n.negative then '-' else n.whole[0];
    assert s[..|Spell(n)|] == Spell(n) && s[|Spell(n)|..] == rest;
  }

  lemma ReadsSpelled(s: string, n: Spelling, rest: string)
    requires ReadsNumber(s, n, rest)
    ensures s == Spell(n) + rest
  {
    var frac, exp :| && s == (if n.negative then "-" else "") + (n.whole + frac)
                     && frac == (if n.fraction == "" then exp else "." + (n.fraction + exp))
                     && ReadsExponent(exp, n.exponent, rest);
    ExponentSpelled(exp, n, rest);
    if n.fraction == "" {
      assert "" + exp == exp;
    } else {
      Join3(".", n.fraction, exp);
    }
    Join5(SignText(n), n.whole, FractionText(n), ExponentText(n), rest);
  }

  lemma ExponentSpelled(s: string, n: Spelling, rest: string)
    requires ReadsExponent(s, n.exponent, rest)
    ensures s == ExponentText(n) + rest
  {
    match n.exponent {
      case None => assert "" + rest == rest;
      case Some(e) =>
        Join3([e.marker] + e.sign, e.digits, rest);
        Join3([e.marker], e.sign, e.digits + rest);
    }
  }

  /** What stands after white space is a mark, so no number goes on there. */
  lemma SpacedDelimited(s: string, rest: string)
    requires Spaced(s, rest) && Delimited(rest)
    ensures Delimited(s)
  {
  }

  lemma SkipSpaced(s: string, rest: string)
    requires Spaced(s, rest)
    ensures Numbers(s) == Numbers(rest)
  {
    var k := |s| - |rest|;
    assert s == s[..k] + s[k..];
    SkipInert(s[..k], rest);
  }

  lemma SkipMark(s: string)
    requires s != "" && Inert(s[0])
    ensures Numbers(s) == Numbers(s[1..])
  {
  }

  lemma Associate(a: seq<string>, b: seq<string>, c: seq<string>)
    ensures a + (b + c) == (a + b) + c
  {
  }

  /** Scanning a text that starts with a document yields its numbers, then goes on with whatever follows. */
  lemma {:induction false} NumbersRead(s: string, doc: Doc, rest: string)
    requires Reads(s, doc, rest) && Delimited(rest)
    ensures Numbers(s) == NumbersIn(doc) + Numbers(rest)
    decreases doc
  {
    match doc {
      case Null => SkipInert("null", rest);
      case Bool(b) => SkipInert(if b then "true" else "false", rest);
      case Number(n) => ReadsSpelled(s, n, rest); TakeNumber(n, rest);
      case Text(q) => SkipQuotedText(q.body, rest);
      case Array(items) => SkipMark(s); NumbersReadItems(s[1..], items, rest);
      case Object(members) => SkipMark(s); NumbersReadMembers(s[1..], members, rest);
    }
  }

  lemma NumbersClose(s: string, mark: char, rest: string)
    requires Spaced(s, [mark] + rest) && Inert(mark)
    ensures Numbers(s) == Numbers(rest)
  {
    SkipSpaced(s, [mark] + rest);
    SkipMark([mark] + rest);
    assert ([mark] + rest)[1..] == rest;
  }

  lemma {:induction false} NumbersReadItems(s: string, items: seq<Doc>, rest: string)
    requires ReadsItems(s, items, rest)
    ensures Numbers(s) == NumbersInItems(items) + Numbers(rest)
    decreases items
  {
    if items == [] {
      NumbersClose(s, ']', rest);
    } else {
      var first, after, mark :| ReadsItem(s, items, rest, first, after, mark);
      SkipSpaced(s, first);
      SpacedDelimited(after, mark);
      NumbersRead(first, items[0], after);
      if |items| == 1 {
        NumbersClose(after, ']', rest);
        assert NumbersInItems(items) == NumbersIn(items[0]) + [];
      } else {
        SkipSpaced(after, mark);
        SkipMark(mark);
        NumbersReadItems(mark[1..], items[1..], rest);
        Associate(NumbersIn(items[0]), NumbersInItems(items[1..]), Numbers(rest));
      }
    }
  }

  lemma {:induction false} NumbersReadMembers(s: string, members: seq<Member>, rest: string)
    requires ReadsMembers(s, members, rest)
    ensures Numbers(s) == NumbersInMembers(members) + Numbers(rest)
    decreases members
  {
    if members == [] {
      NumbersClose(s, '}', rest);
    } else {
      var first, after, mark :| ReadsMemberThen(s, members, rest, first, after, mark);
      SkipSpaced(s, first);
      SpacedDelimited(after, mark);
      NumbersReadMember(first, members[0], after);
      if |members| == 1 {
        NumbersClose(after, '}', rest);
        assert NumbersInMembers(members) == NumbersInMember(members[0]) + [];
      } else {
        SkipSpaced(after, mark);
        SkipMark(mark);
        NumbersReadMembers(mark[1..], members[1..], rest);
        Associate(NumbersInMember(members[0]), NumbersInMembers(members[1..]), Numbers(rest));
      }
    }
  }

  lemma {:induction false} NumbersReadMember(s: string, m: Member, rest: string)
    requires ReadsMember(s, m, rest) && Delimited(rest)
    ensures Numbers(s) == NumbersInMember(m) + Numbers(rest)
    decreases m
  {
    match m case Member(key, value) =>
      var after, colon, first :|
        ReadsQuoted(s, key.body, after) && Spaced(after, ":" + colon) && Spaced(colon, first) && Reads(first, value, rest);
      SkipQuotedText(key.body, after);
      NumbersClose(after, ':', colon);
      SkipSpaced(colon, first);
      NumbersRead(first, value, rest);
  }

  /** The number scanner on a text that denotes a document returns exactly its number tokens, in order. */
  lemma ScannerFindsTheNumbers(text: string, doc: Doc)
    requires Denotes(text, doc)
    ensures Numbers(text) == NumbersIn(doc)
  {
    var first, after :| Spaced(text, first) && Reads(first, doc, after) && AllSpace(after);
    SkipSpaced(text, first);
    NumbersRead(first, doc, after);
    SkipInert(after, "");
    assert after + "" == after && NumbersIn(doc) + [] == NumbersIn(doc);
  }

  lemma {:induction false} SpacesAreSpace(n: nat)
    ensures AllSpace(Spaces(n))
  {
    if n > 0 {
      SpacesAreSpace(n - 1);
    }
  }

  /** Both ways `stringify` prints are such styles. */
  lemma StringifyStyles(width: nat)
    ensures ValidStyle(Compact()) && ValidStyle(Indented(width))
  {
    forall d: nat ensures AllSpace(Indented(width).open(d)) && AllSpace(Indented(width).close(d)) {
      SpacesAreSpace(width * (d + 1));
      SpacesAreSpace(width * d);
    }
  }

  // ----- the tokens counted -----

  /** The tokens of a document: brackets, commas, colons, keys, strings, numbers and literals. */
  function TokensIn(doc: Doc): nat {
    match doc
    case Array(items) => 2 + TokensInItems(items)
    case Object(members) => 2 + TokensInMembers(members)
    case _ => 1
  }

  function TokensInItems(items: seq<Doc>): nat {
    if items == [] then 0
    else if |items| == 1 then TokensIn(items[0])
    else TokensIn(items[0]) + 1 + TokensInItems(items[1..])
  }

  function TokensInMembers(members: seq<Member>): nat {
    if members == [] then 0
    else if |members| == 1 then TokensInMember(members[0])
    else TokensInMember(members[0]) + 1 + TokensInMembers(members[1..])
  }

  function TokensInMember(m: Member): nat {
    match m case Member(_, value) => 2 + TokensIn(value)
  }

  lemma {:induction false} CountPastSpace(s: string, rest: string)
    requires AllSpace(s)
    ensures CountTokens(s + rest) == CountTokens(rest)
  {
    if s == [] {
      assert s + rest == rest;
    } else {
      assert (s + rest)[1..] == s[1..] + rest;
      CountPastSpace(s[1..], rest);
    }
  }

  predicate IsMark(s: string) { |s| == 1 && s[0] in "[]{},:" }

  lemma CountMark(mark: string, rest: string)
    requires IsMark(mark)
    ensures CountTokens(mark + rest) == 1 + CountTokens(rest)
  {
    var s := mark + rest;
    assert s[0] == mark[0];
    assert |s| >= 4 ==> s[..4][0] == mark[0];
    assert |s| >= 5 ==> s[..5][0] == mark[0];
    assert s[1..] == rest;
  }

  lemma CountSpaced(s: string, rest: string)
    requires Spaced(s, rest)
    ensures CountTokens(s) == CountTokens(rest)
  {
    var k := |s| - |rest|;
    assert s == s[..k] + s[k..];
    CountPastSpace(s[..k], rest);
  }

  lemma CountSpacedMark(s: string, mark: char, rest: string)
    requires Spaced(s, [mark] + rest) && IsMark([mark])
    ensures CountTokens(s) == 1 + CountTokens(rest)
  {
    CountSpaced(s, [mark] + rest);
    CountMark([mark], rest);
  }

  lemma CountFirst(s: string)
    requires s != "" && IsMark([s[0]])
    ensures CountTokens(s) == 1 + CountTokens(s[1..])
  {
    assert s == [s[0]] + s[1..];
    CountMark([s[0]], s[1..]);
  }

  lemma CountQuoted(body: string, rest: string)
    requires ValidBody(body)
    ensures CountTokens("\"" + (body + ("\"" + rest))) == 1 + CountTokens(rest)
  {
    var s := "\"" + (body + ("\"" + rest));
    BodyReach(body, rest);
    assert s[1..] == body + ("\"" + rest);
    assert s[|body| + 2..] == rest;
  }

  lemma {:induction false} RunReach(s: string, rest: string)
    requires (forall i :: 0 <= i < |s| ==> InNumber(s[i])) && Delimited(rest)
    ensures RunLength(s + rest) == |s|
  {
    if s == [] {
      assert s + rest == rest;
    } else {
      assert (s + rest)[1..] == s[1..] + rest;
      RunReach(s[1..], rest);
    }
  }

  lemma CountRun(t: string, rest: string)
    requires t != [] && (t[0] == '-' || IsDigit(t[0])) && Delimited(rest)
    requires forall i :: 0 <= i < |t| ==> InNumber(t[i])
    ensures CountTokens(t + rest) == 1 + CountTokens(rest)
  {
    var s := t + rest;
    assert s[1..] == t[1..] + rest;
    RunReach(t[1..], rest);
    assert s[|t|..] == rest;
  }

  lemma SpelledInNumber(n: Spelling)
    requires ValidSpelling(n)
    ensures var t := Spell(n); t != [] && (t[0] == '-' || IsDigit(t[0])) && forall i :: 0 <= i < |t| ==> InNumber(t[i])
  {
    assert Spell(n)[0] == if n.negative then '-' else n.whole[0];
  }

  lemma CountNumber(n: Spelling, rest: string)
    requires ValidSpelling(n) && Delimited(rest)
    ensures CountTokens(Spell(n) + rest) == 1 + CountTokens(rest)
  {
    SpelledInNumber(n);
    CountRun(Spell(n), rest);
  }

  lemma CountLiteral(t: string, rest: string)
    requires t == "null" || t == "true" || t == "false"
    ensures CountTokens(t + rest) == 1 + CountTokens(rest)
  {
    var s := t + rest;
    assert s[0] == t[0];
    assert s[..|t|] == t && s[|t|..] == rest;
    assert s[..4][0] == t[0];
    assert |s| >= 5 ==> s[..5][0] == t[0];
  }

  lemma {:induction false} CountRead(s: string, doc: Doc, rest: string)
    requires Reads(s, doc, rest) && Delimited(rest)
    ensures CountTokens(s) == TokensIn(doc) + CountTokens(rest)
    decreases doc
  {
    match doc {
      case Null => CountLiteral("null", rest);
      case Bool(b) => CountLiteral(if b then "true" else "false", rest);
      case Number(n) => ReadsSpelled(s, n, rest); CountNumber(n, rest);
      case Text(q) => CountQuoted(q.body, rest);
      case Array(items) => CountFirst(s); CountReadItems(s[1..], items, rest);
      case Object(members) => CountFirst(s); CountReadMembers(s[1..], members, rest);
    }
  }

  lemma {:induction false} CountReadItems(s: string, items: seq<Doc>, rest: string)
    requires ReadsItems(s, items, rest)
    ensures CountTokens(s) == TokensInItems(items) + 1 + CountTokens(rest)
    decreases items
  {
    if items == [] {
      CountSpacedMark(s, ']', rest);
    } else {
      var first, after, mark :| ReadsItem(s, items, rest, first, after, mark);
      CountSpaced(s, first);
      SpacedDelimited(after, mark);
      CountRead(first, items[0], after);
      if |items| == 1 {
        CountSpacedMark(after, ']', rest);
      } else {
        CountSpaced(after, mark);
        CountFirst(mark);
        CountReadItems(mark[1..], items[1..], rest);
      }
    }
  }

  lemma {:induction false} CountReadMembers(s: string, members: seq<Member>, rest: string)
    requires ReadsMembers(s, members, rest)
    ensures CountTokens(s) == TokensInMembers(members) + 1 + CountTokens(rest)
    decreases members
  {
    if members == [] {
      CountSpacedMark(s, '}', rest);
    } else {
      var first, after, mark :| ReadsMemberThen(s, members, rest, first, after, mark);
      CountSpaced(s, first);
      SpacedDelimited(after, mark);
      CountReadMember(first, members[0], after);
      if |members| == 1 {
        CountSpacedMark(after, '}', rest);
      } else {
        CountSpaced(after, mark);
        CountFirst(mark);
        CountReadMembers(mark[1..], members[1..], rest);
      }
    }
  }

  lemma {:induction false} CountReadMember(s: string, m: Member, rest: string)
    requires ReadsMember(s, m, rest) && Delimited(rest)
    ensures CountTokens(s) == TokensInMember(m) + CountTokens(rest)
    decreases m
  {
    match m case Member(key, value) =>
      var after, colon, first :|
        ReadsQuoted(s, key.body, after) && Spaced(after, ":" + colon) && Spaced(colon, first) && Reads(first, value, rest);
      CountQuoted(key.body, after);
      CountSpacedMark(after, ':', colon);
      CountSpaced(colon, first);
      CountRead(first, value, rest);
  }

  /** The token limit on a text that denotes a document counts the tokens of its syntax, whatever the white space. */
  lemma LimitCountsTheTokens(text: string, doc: Doc)
    requires Denotes(text, doc)
    ensures CountTokens(text) == TokensIn(doc)
  {
    var first, after :| Spaced(text, first) && Reads(first, doc, after) && AllSpace(after);
    CountSpaced(text, first);
    CountRead(first, doc, after);
    CountPastSpace(after, "");
    assert after + "" == after;
  }
}
