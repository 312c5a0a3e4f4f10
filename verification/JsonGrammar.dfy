/**
 When a text denotes a document, by the grammar of sections 2 to 7 of RFC 8259,
 and that what the printer writes, in any style, denotes the document printed.
 */
module JsonGrammar {
  import opened Wrappers
  import opened JsonDocuments

  // ----- the grammar; each relation takes what follows as its last argument -----

  /** `rest` is what is left of the text after white space. */
  ghost predicate Spaced(s: string, rest: string) {
    |rest| <= |s| && s[|s| - |rest|..] == rest && AllSpace(s[..|s| - |rest|])
  }

  ghost predicate ReadsExponent(s: string, e: Option<Exponent>, rest: string) {
    match e
    case None => s == rest
    case Some(x) => s == [x.marker] + (x.sign + (x.digits + rest))
  }

  ghost predicate ReadsNumber(s: string, n: Spelling, rest: string) {
    && ValidSpelling(n)
    && exists frac, exp ::
         && s == (if n.negative then "-" else "") + (n.whole + frac)
         && frac == (if n.fraction == "" then exp else "." + (n.fraction + exp))
         && ReadsExponent(exp, n.exponent, rest)
  }

  ghost predicate ReadsQuoted(s: string, body: string, rest: string) {
    ValidBody(body) && s == "\"" + (body + ("\"" + rest))
  }

  /** The text starts with the document, and goes on with `rest`. */
  ghost predicate Reads(s: string, doc: Doc, rest: string)
    decreases doc
  {
    match doc
    case Null => s == "null" + rest
    case Bool(true) => s == "true" + rest
    case Bool(false) => s == "false" + rest
    case Number(n) => ReadsNumber(s, n, rest)
    case Text(q) => ReadsQuoted(s, q.body, rest)
    case Array(items) => s != "" && s[0] == '[' && ReadsItems(s[1..], items, rest)
    case Object(members) => s != "" && s[0] == '{' && ReadsMembers(s[1..], members, rest)
  }

  /** The elements, with commas between them, up to the closing bracket. */
  ghost predicate ReadsItems(s: string, items: seq<Doc>, rest: string)
    decreases items
  {
    if items == [] then Spaced(s, "]" + rest)
    else exists first, after, mark :: ReadsItem(s, items, rest, first, after, mark)
  }

  ghost predicate ReadsItem(s: string, items: seq<Doc>, rest: string, first: string, after: string, mark: string)
    requires items != []
    decreases items, 0
  {
    && Spaced(s, first) && Reads(first, items[0], after) && Spaced(after, mark)
    && if |items| == 1 then mark == "]" + rest
       else mark != "" && mark[0] == ',' && ReadsItems(mark[1..], items[1..], rest)
  }

  ghost predicate ReadsMembers(s: string, members: seq<Member>, rest: string)
    decreases members
  {
    if members == [] then Spaced(s, "}" + rest)
    else exists first, after, mark :: ReadsMemberThen(s, members, rest, first, after, mark)
  }

  ghost predicate ReadsMemberThen(s: string, members: seq<Member>, rest: string, first: string, after: string, mark: string)
    requires members != []
    decreases members, 0
  {
    && Spaced(s, first) && ReadsMember(first, members[0], after) && Spaced(after, mark)
    && if |members| == 1 then mark == "}" + rest
       else mark != "" && mark[0] == ',' && ReadsMembers(mark[1..], members[1..], rest)
  }

  /** A quoted name, a colon and a value. */
  ghost predicate ReadsMember(s: string, m: Member, rest: string)
    decreases m
  {
    match m case Member(key, value) =>
      exists after, colon, first ::
        ReadsQuoted(s, key.body, after) && Spaced(after, ":" + colon) && Spaced(colon, first) && Reads(first, value, rest)
  }

  /** The text is the document, with white space around it. */
  ghost predicate Denotes(text: string, doc: Doc) {
    exists first, after :: Spaced(text, first) && Reads(first, doc, after) && AllSpace(after)
  }

  // ----- what is printed denotes what was printed -----

  lemma SpacedAfter(w: string, rest: string)
    requires AllSpace(w)
    ensures Spaced(w + rest, rest)
  {
    assert (w + rest)[|w|..] == rest && (w + rest)[..|w|] == w;
  }

  lemma NotSpaced(s: string)
    ensures Spaced(s, s)
  {
    assert s[0..] == s && s[..0] == "";
  }

  lemma Drop1(c: string, s: string)
    requires |c| == 1
    ensures (c + s)[0] == c[0] && (c + s)[1..] == s
  {
  }

  lemma SpelledReads(n: Spelling, rest: string)
    requires ValidSpelling(n)
    ensures ReadsNumber(Spell(n) + rest, n, rest)
  {
    var exp := ExponentText(n) + rest;
    var frac := FractionText(n) + exp;
    Join5(SignText(n), n.whole, FractionText(n), ExponentText(n), rest);
    if n.fraction != "" {
      Join3(".", n.fraction, exp);
    }
    if n.exponent.Some? {
      var e := n.exponent.value;
      Join3([e.marker], e.sign, e.digits);
      Join3([e.marker] + e.sign, e.digits, rest);
      Join3([e.marker], e.sign, e.digits + rest);
    }
    assert ReadsExponent(exp, n.exponent, rest);
  }

  lemma {:induction false} PrintedReads(style: Style, doc: Doc, depth: nat, rest: string)
    requires ValidStyle(style) && ValidDoc(doc)
    ensures Reads(PrintTo(style, doc, depth, rest), doc, rest)
    decreases doc
  {
    match doc {
      case Null =>
      case Bool(_) =>
      case Number(n) => SpelledReads(n, rest);
      case Text(_) =>
      case Array(items) =>
        if items == [] {
          Drop1("[", "]" + rest);
          NotSpaced("]" + rest);
        } else {
          PrintedItems(style, items, depth, style.open(depth), rest);
          Drop1("[", style.open(depth) + PrintItemsTo(style, items, depth, style.close(depth) + ("]" + rest)));
        }
      case Object(members) =>
        if members == [] {
          Drop1("{", "}" + rest);
          NotSpaced("}" + rest);
        } else {
          PrintedMembers(style, members, depth, style.open(depth), rest);
          Drop1("{", style.open(depth) + PrintMembersTo(style, members, depth, style.close(depth) + ("}" + rest)));
        }
    }
  }

  lemma {:induction false} PrintedItems(style: Style, items: seq<Doc>, depth: nat, w: string, rest: string)
    requires ValidStyle(style) && items != [] && AllSpace(w)
    requires forall i :: 0 <= i < |items| ==> ValidDoc(items[i])
    ensures ReadsItems(w + PrintItemsTo(style, items, depth, style.close(depth) + ("]" + rest)), items, rest)
    decreases items
  {
    var close := style.close(depth) + ("]" + rest);
    var s := w + PrintItemsTo(style, items, depth, close);
    SpacedAfter(w, PrintItemsTo(style, items, depth, close));
    if |items| == 1 {
      PrintedReads(style, items[0], depth + 1, close);
      SpacedAfter(style.close(depth), "]" + rest);
      assert ReadsItem(s, items, rest, PrintTo(style, items[0], depth + 1, close), close, "]" + rest);
    } else {
      var more := style.between(depth) + PrintItemsTo(style, items[1..], depth, close);
      PrintedItems(style, items[1..], depth, style.between(depth), rest);
      PrintedReads(style, items[0], depth + 1, "," + more);
      NotSpaced("," + more);
      Drop1(",", more);
      assert ReadsItem(s, items, rest, PrintTo(style, items[0], depth + 1, "," + more), "," + more, "," + more);
    }
  }

  lemma {:induction false} PrintedMembers(style: Style, members: seq<Member>, depth: nat, w: string, rest: string)
    requires ValidStyle(style) && members != [] && AllSpace(w)
    requires forall i :: 0 <= i < |members| ==> ValidMember(members[i])
    ensures ReadsMembers(w + PrintMembersTo(style, members, depth, style.close(depth) + ("}" + rest)), members, rest)
    decreases members
  {
    var close := style.close(depth) + ("}" + rest);
    var s := w + PrintMembersTo(style, members, depth, close);
    SpacedAfter(w, PrintMembersTo(style, members, depth, close));
    if |members| == 1 {
      PrintedMember(style, members[0], depth, close);
      SpacedAfter(style.close(depth), "}" + rest);
      assert ReadsMemberThen(s, members, rest, PrintMemberTo(style, members[0], depth, close), close, "}" + rest);
    } else {
      var more := style.between(depth) + PrintMembersTo(style, members[1..], depth, close);
      PrintedMembers(style, members[1..], depth, style.between(depth), rest);
      PrintedMember(style, members[0], depth, "," + more);
      NotSpaced("," + more);
      Drop1(",", more);
      assert ReadsMemberThen(s, members, rest, PrintMemberTo(style, members[0], depth, "," + more), "," + more, "," + more);
    }
  }

  lemma {:induction false} PrintedMember(style: Style, m: Member, depth: nat, rest: string)
    requires ValidStyle(style) && ValidMember(m)
    ensures ReadsMember(PrintMemberTo(style, m, depth, rest), m, rest)
    decreases m
  {
    match m case Member(key, value) =>
      var first := PrintTo(style, value, depth + 1, rest);
      var colon := style.colon + first;
      PrintedReads(style, value, depth + 1, rest);
      NotSpaced(":" + colon);
      SpacedAfter(style.colon, first);
      assert ReadsQuoted(PrintMemberTo(style, m, depth, rest), key.body, ":" + colon);
  }

  /** In every style, what is printed denotes the document. */
  lemma PrintDenotes(style: Style, doc: Doc)
    requires ValidStyle(style) && ValidDoc(doc)
    ensures Denotes(Print(style, doc, 0), doc)
  {
    PrintedReads(style, doc, 0, "");
    PrintToIsPrint(style, doc, 0, "");
    assert Print(style, doc, 0) + "" == Print(style, doc, 0);
    NotSpaced(Print(style, doc, 0));
  }
}
