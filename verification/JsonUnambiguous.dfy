/** A text denotes one document: the grammar of RFC 8259 is unambiguous. */
module JsonUnambiguous {
  import opened Wrappers
  import opened JsonLexer
  import opened JsonDocuments
  import opened JsonGrammar
  import opened JsonScanning

  /** The documents are spelled alike; only what a string decodes to is not compared. */
  ghost predicate SameSpelling(a: Doc, b: Doc)
    decreases a
  {
    match (a, b)
    case (Null, Null) => true
    case (Bool(x), Bool(y)) => x == y
    case (Number(x), Number(y)) => x == y
    case (Text(x), Text(y)) => x.body == y.body
    case (Array(x), Array(y)) => |x| == |y| && forall i :: 0 <= i < |x| ==> SameSpelling(x[i], y[i])
    case (Object(x), Object(y)) => |x| == |y| && forall i :: 0 <= i < |x| ==> SameMember(x[i], y[i])
    case _ => false
  }

  ghost predicate SameMember(a: Member, b: Member)
    decreases a
  {
    match a case Member(key, value) => key.body == b.key.body && SameSpelling(value, b.value)
  }

  // ----- the tokens -----

  lemma SplitOnce(s: string, a: string, b: string, x: string, y: string)
    requires s == a + x == b + y && |a| == |b|
    ensures a == b && x == y
  {
    assert a == s[..|a|] && b == s[..|b|];
    assert x == s[|a|..] && y == s[|b|..];
  }

  lemma QuotedOnce(s: string, a: string, x: string, b: string, y: string)
    requires ReadsQuoted(s, a, x) && ReadsQuoted(s, b, y)
    ensures a == b && x == y
  {
    BodyReach(a, x);
    BodyReach(b, y);
    SplitOnce(s, "\"", "\"", a + ("\"" + x), b + ("\"" + y));
    SplitOnce(a + ("\"" + x), a, b, "\"" + x, "\"" + y);
    SplitOnce("\"" + x, "\"", "\"", x, y);
  }

  lemma ExponentOnce(a: Spelling, b: Spelling)
    requires ValidSpelling(a) && ValidSpelling(b) && ExponentText(a) == ExponentText(b)
    ensures a.exponent == b.exponent
  {
    var t := ExponentText(a);
    if a.exponent.Some? && b.exponent.Some? {
      var e, f := a.exponent.value, b.exponent.value;
      assert t[0] == e.marker == f.marker;
      assert t[1] == (e.sign + e.digits)[0] == (f.sign + f.digits)[0];
      assert |e.sign| == |f.sign|;
      assert t[1..] == e.sign + e.digits == f.sign + f.digits;
      SplitOnce(t[1..], e.sign, f.sign, e.digits, f.digits);
    }
  }

  lemma FractionOnce(a: Spelling, b: Spelling)
    requires FractionText(a) == FractionText(b)
    ensures a.fraction == b.fraction
  {
    if a.fraction != "" && b.fraction != "" {
      SplitOnce(FractionText(a), ".", ".", a.fraction, b.fraction);
    }
  }

  lemma WholeOnce(s: string, a: Spelling, x: string, b: Spelling, y: string)
    requires ValidSpelling(a) && ValidSpelling(b)
    requires s == SignText(a) + a.whole + x == SignText(b) + b.whole + y
    requires (x == "" || !IsDigit(x[0])) && (y == "" || !IsDigit(y[0]))
    ensures a.negative == b.negative && a.whole == b.whole && x == y
  {
    IntegerReach(a, x);
    IntegerReach(b, y);
    assert s[0] == (if a.negative then '-' else a.whole[0]) == (if b.negative then '-' else b.whole[0]);
    SplitOnce(s, SignText(a) + a.whole, SignText(b) + b.whole, x, y);
    SplitOnce(SignText(a) + a.whole, SignText(a), SignText(b), a.whole, b.whole);
  }

  lemma Parts(s: string, n: Spelling, rest: string)
    requires ReadsNumber(s, n, rest)
    ensures s == SignText(n) + n.whole + (FractionText(n) + (ExponentText(n) + rest))
  {
    ReadsSpelled(s, n, rest);
    ThreeParts(SignText(n) + n.whole, FractionText(n), ExponentText(n), rest);
  }

  lemma NumberOnce(s: string, a: Spelling, x: string, b: Spelling, y: string)
    requires ReadsNumber(s, a, x) && ReadsNumber(s, b, y) && Delimited(x) && Delimited(y)
    ensures a == b && x == y
  {
    Parts(s, a, x);
    Parts(s, b, y);
    AfterWhole(a, x);
    AfterWhole(b, y);
    var p, q := ExponentText(a) + x, ExponentText(b) + y;
    WholeOnce(s, a, FractionText(a) + p, b, FractionText(b) + q);
    FractionReach(a, x);
    FractionReach(b, y);
    SplitOnce(FractionText(a) + p, FractionText(a), FractionText(b), p, q);
    FractionOnce(a, b);
    ExponentReach(a, x);
    ExponentReach(b, y);
    SplitOnce(p, ExponentText(a), ExponentText(b), x, y);
    ExponentOnce(a, b);
  }

  // ----- white space and marks -----

  lemma SpacedOnce(s: string, a: string, b: string)
    requires Spaced(s, a) && Spaced(s, b) && a != "" && b != "" && !IsJsonSpace(a[0]) && !IsJsonSpace(b[0])
    ensures a == b
  {
    assert a[0] == s[|s| - |a|] && b[0] == s[|s| - |b|];
    if |a| != |b| {
      assert false;
    }
  }

  /** The first character of a document tells what kind it is. */
  predicate Opens(doc: Doc, c: char) {
    match doc
    case Null => c == 'n'
    case Bool(b) => c == if b then 't' else 'f'
    case Number(_) => c == '-' || IsDigit(c)
    case Text(_) => c == '"'
    case Array(_) => c == '['
    case Object(_) => c == '{'
  }

  lemma FirstCharacter(s: string, doc: Doc, rest: string)
    requires Reads(s, doc, rest)
    ensures s != "" && Opens(doc, s[0]) && !IsJsonSpace(s[0]) && s[0] != ']'
  {
    if doc.Number? {
      Parts(s, doc.n, rest);
      assert s[0] == if doc.n.negative then '-' else doc.n.whole[0];
    }
  }

  // ----- the documents -----

  /** Whatever follows, a text starts with one document. */
  lemma {:induction false} ReadsOnce(s: string, a: Doc, x: string, b: Doc, y: string)
    requires Reads(s, a, x) && Reads(s, b, y) && Delimited(x) && Delimited(y)
    ensures SameSpelling(a, b) && x == y
    decreases a
  {
    FirstCharacter(s, a, x);
    FirstCharacter(s, b, y);
    match a {
      case Null => SplitOnce(s, "null", "null", x, y);
      case Bool(v) => SplitOnce(s, if v then "true" else "false", if v then "true" else "false", x, y);
      case Number(n) => NumberOnce(s, n, x, b.n, y);
      case Text(q) => QuotedOnce(s, q.body, x, b.q.body, y);
      case Array(items) => ItemsOnce(s[1..], items, x, b.items, y);
      case Object(members) => MembersOnce(s[1..], members, x, b.members, y);
    }
  }

  lemma {:induction false} ItemsOnce(s: string, a: seq<Doc>, x: string, b: seq<Doc>, y: string)
    requires ReadsItems(s, a, x) && ReadsItems(s, b, y)
    ensures x == y && |a| == |b| && forall i :: 0 <= i < |a| ==> SameSpelling(a[i], b[i])
    decreases a
  {
    if a == [] {
      NoItems(s, x, b, y);
      SpacedOnce(s, "]" + x, "]" + y);
      SplitOnce("]" + x, "]", "]", x, y);
    } else {
      if b == [] {
        NoItems(s, y, a, x);
        assert false;
      }
      var first, after, mark :| ReadsItem(s, a, x, first, after, mark);
      var first', after', mark' :| ReadsItem(s, b, y, first', after', mark');
      FirstCharacter(first, a[0], after);
      FirstCharacter(first', b[0], after');
      SpacedOnce(s, first, first');
      SpacedDelimited(after, mark);
      SpacedDelimited(after', mark');
      ReadsOnce(first, a[0], after, b[0], after');
      SpacedOnce(after, mark, mark');
      if |a| == 1 {
        SplitOnce(mark, "]", "]", x, y);
      } else {
        ItemsOnce(mark[1..], a[1..], x, b[1..], y);
        forall i | 0 <= i < |a| ensures SameSpelling(a[i], b[i]) {
          assert i > 0 ==> a[i] == a[1..][i - 1] && b[i] == b[1..][i - 1];
        }
      }
    }
  }

  lemma NoItems(s: string, x: string, b: seq<Doc>, y: string)
    requires Spaced(s, "]" + x) && ReadsItems(s, b, y)
    ensures b == []
  {
    if b != [] {
      var first, after, mark :| ReadsItem(s, b, y, first, after, mark);
      FirstCharacter(first, b[0], after);
      SpacedOnce(s, first, "]" + x);
      assert false;
    }
  }

  lemma FirstQuote(s: string, m: Member, rest: string)
    requires ReadsMember(s, m, rest)
    ensures s != "" && s[0] == '"'
  {
    match m case Member(key, value) =>
      var after, colon, first :|
        ReadsQuoted(s, key.body, after) && Spaced(after, ":" + colon) && Spaced(colon, first) && Reads(first, value, rest);
      assert s[0] == '"';
  }

  lemma NoMembers(s: string, x: string, b: seq<Member>, y: string)
    requires Spaced(s, "}" + x) && ReadsMembers(s, b, y)
    ensures b == []
  {
    if b != [] {
      var first, after, mark :| ReadsMemberThen(s, b, y, first, after, mark);
      FirstQuote(first, b[0], after);
      SpacedOnce(s, first, "}" + x);
      assert false;
    }
  }

  lemma {:induction false} MembersOnce(s: string, a: seq<Member>, x: string, b: seq<Member>, y: string)
    requires ReadsMembers(s, a, x) && ReadsMembers(s, b, y)
    ensures x == y && |a| == |b| && forall i :: 0 <= i < |a| ==> SameMember(a[i], b[i])
    decreases a
  {
    if a == [] {
      NoMembers(s, x, b, y);
      SpacedOnce(s, "}" + x, "}" + y);
      SplitOnce("}" + x, "}", "}", x, y);
    } else {
      if b == [] {
        NoMembers(s, y, a, x);
        assert false;
      }
      var first, after, mark :| ReadsMemberThen(s, a, x, first, after, mark);
      var first', after', mark' :| ReadsMemberThen(s, b, y, first', after', mark');
      FirstQuote(first, a[0], after);
      FirstQuote(first', b[0], after');
      SpacedOnce(s, first, first');
      SpacedDelimited(after, mark);
      SpacedDelimited(after', mark');
      MemberOnce(first, a[0], after, b[0], after');
      SpacedOnce(after, mark, mark');
      if |a| == 1 {
        SplitOnce(mark, "}", "}", x, y);
      } else {
        MembersOnce(mark[1..], a[1..], x, b[1..], y);
        forall i | 0 <= i < |a| ensures SameMember(a[i], b[i]) {
          assert i > 0 ==> a[i] == a[1..][i - 1] && b[i] == b[1..][i - 1];
        }
      }
    }
  }

  lemma {:induction false} MemberOnce(s: string, a: Member, x: string, b: Member, y: string)
    requires ReadsMember(s, a, x) && ReadsMember(s, b, y) && Delimited(x) && Delimited(y)
    ensures SameMember(a, b) && x == y
    decreases a
  {
    match a case Member(key, value) =>
      var after, colon, first :|
        ReadsQuoted(s, key.body, after) && Spaced(after, ":" + colon) && Spaced(colon, first) && Reads(first, value, x);
      var after', colon', first' :|
        ReadsQuoted(s, b.key.body, after') && Spaced(after', ":" + colon') && Spaced(colon', first') && Reads(first', b.value, y);
      QuotedOnce(s, key.body, after, b.key.body, after');
      SpacedOnce(after, ":" + colon, ":" + colon');
      SplitOnce(":" + colon, ":", ":", colon, colon');
      FirstCharacter(first, value, x);
      FirstCharacter(first', b.value, y);
      SpacedOnce(colon, first, first');
      ReadsOnce(first, value, x, b.value, y);
  }

  /** All documents that a text denotes are spelled alike. */
  lemma DenotesOne(text: string, a: Doc, b: Doc)
    requires Denotes(text, a) && Denotes(text, b)
    ensures SameSpelling(a, b)
  {
    var first, after :| Spaced(text, first) && Reads(first, a, after) && AllSpace(after);
    var first', after' :| Spaced(text, first') && Reads(first', b, after') && AllSpace(after');
    FirstCharacter(first, a, after);
    FirstCharacter(first', b, after');
    SpacedOnce(text, first, first');
    ReadsOnce(first, a, after, b, after');
  }

  // ----- with strings decoded alike, it is one document -----

  /** Every string of the document has the text that `decode` gives its body. */
  ghost predicate DecodedBy(decode: string -> string, doc: Doc)
    decreases doc
  {
    match doc
    case Text(q) => q.text == decode(q.body)
    case Array(items) => forall i :: 0 <= i < |items| ==> DecodedBy(decode, items[i])
    case Object(members) => forall i :: 0 <= i < |members| ==> MemberDecodedBy(decode, members[i])
    case _ => true
  }

  ghost predicate MemberDecodedBy(decode: string -> string, m: Member)
    decreases m
  {
    match m case Member(key, value) => key.text == decode(key.body) && DecodedBy(decode, value)
  }

  lemma {:induction false} DecodedAlike(decode: string -> string, a: Doc, b: Doc)
    requires SameSpelling(a, b) && DecodedBy(decode, a) && DecodedBy(decode, b)
    ensures a == b
    decreases a
  {
    match a {
      case Array(items) =>
        forall i | 0 <= i < |items| ensures items[i] == b.items[i] {
          DecodedAlike(decode, items[i], b.items[i]);
        }
        assert items == b.items;
      case Object(members) =>
        forall i | 0 <= i < |members| ensures members[i] == b.members[i] {
          MemberAlike(decode, members[i], b.members[i]);
        }
        assert members == b.members;
      case _ =>
    }
  }

  lemma {:induction false} MemberAlike(decode: string -> string, a: Member, b: Member)
    requires SameMember(a, b) && MemberDecodedBy(decode, a) && MemberDecodedBy(decode, b)
    ensures a == b
    decreases a
  {
    match a case Member(key, value) => DecodedAlike(decode, value, b.value);
  }

  /** Printing is one to one: two documents that print to one text, in whatever styles, are the same. */
  lemma PrintIsOneToOne(decode: string -> string, style: Style, a: Doc, style': Style, b: Doc)
    requires ValidStyle(style) && ValidDoc(a) && DecodedBy(decode, a)
    requires ValidStyle(style') && ValidDoc(b) && DecodedBy(decode, b)
    requires Print(style, a, 0) == Print(style', b, 0)
    ensures a == b
  {
    PrintDenotes(style, a);
    PrintDenotes(style', b);
    DenotesOne(Print(style, a, 0), a, b);
    DecodedAlike(decode, a, b);
  }
}
