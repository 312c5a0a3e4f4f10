/**
 JSON documents as syntax trees that keep every spelling and every duplicate
 key, their printed text, and what the scanners make of that text.
 */
module JsonDocuments {
  import opened Wrappers
  import opened JsonLexer

  // ----- numbers (section 6 of RFC 8259) -----

  datatype Exponent = Exponent(marker: char, sign: string, digits: string)

  datatype Spelling = Spelling(negative: bool, whole: string, fraction: string, exponent: Option<Exponent>)

  ghost predicate AllDigits(s: string) { forall i :: 0 <= i < |s| ==> IsDigit(s[i]) }

  ghost predicate ValidSpelling(n: Spelling) {
    && n.whole != [] && AllDigits(n.whole) && (n.whole[0] == '0' ==> |n.whole| == 1)
    && AllDigits(n.fraction)
    && (n.exponent.Some? ==>
          var e := n.exponent.value;
          && (e.marker == 'e' || e.marker == 'E')
          && (e.sign == "" || e.sign == "+" || e.sign == "-")
          && e.digits != [] && AllDigits(e.digits))
  }

  function SignText(n: Spelling): string { if n.negative then "-" else "" }

  function FractionText(n: Spelling): string { if n.fraction == [] then "" else "." + n.fraction }

  function ExponentText(n: Spelling): string {
    match n.exponent case None => "" case Some(e) => [e.marker] + e.sign + e.digits
  }

  function Spell(n: Spelling): string {
    SignText(n) + n.whole + FractionText(n) + ExponentText(n)
  }

  // ----- strings (section 7 of RFC 8259) -----

  /** A string literal: what stands between the quotes, and the text it decodes to. */
  datatype Quoted = Quoted(body: string, text: string)

  /** No bare quote, and every backslash followed by something. */
  predicate ValidBody(b: string) {
    b == [] || if b[0] == '\\' then |b| >= 2 && ValidBody(b[2..]) else b[0] != '"' && ValidBody(b[1..])
  }

  // ----- documents -----

  datatype Doc =
    | Null
    | Bool(b: bool)
    | Number(n: Spelling)
    | Text(q: Quoted)
    | Array(items: seq<Doc>)
    | Object(members: seq<Member>)

  datatype Member = Member(key: Quoted, value: Doc)

  ghost predicate ValidDoc(doc: Doc) {
    match doc
    case Number(n) => ValidSpelling(n)
    case Text(q) => ValidBody(q.body)
    case Array(items) => forall i :: 0 <= i < |items| ==> ValidDoc(items[i])
    case Object(members) => forall i :: 0 <= i < |members| ==> ValidMember(members[i])
    case _ => true
  }

  ghost predicate ValidMember(m: Member) {
    match m case Member(key, value) => ValidBody(key.body) && ValidDoc(value)
  }

  /** The white space a printer puts after an opening bracket, after a comma, before a closing bracket and after a colon. */
  datatype Style = Style(open: nat -> string, between: nat -> string, close: nat -> string, colon: string)

  function Spaces(n: nat): string { if n == 0 then "" else " " + Spaces(n - 1) }

  /** `stringify` without an indent, and with one. */
  function Compact(): Style { Style((_: nat) => "", (_: nat) => "", (_: nat) => "", "") }

  function Indented(width: nat): Style {
    Style((depth: nat) => "\n" + Spaces(width * (depth + 1)),
          (depth: nat) => "\n" + Spaces(width * (depth + 1)),
          (depth: nat) => "\n" + Spaces(width * depth), " ")
  }

  predicate IsJsonSpace(c: char) { c == ' ' || c == '\t' || c == '\n' || c == '\r' }

  ghost predicate AllSpace(s: string) { forall i :: 0 <= i < |s| ==> IsJsonSpace(s[i]) }

  ghost predicate ValidStyle(style: Style) {
    && (forall d :: AllSpace(style.open(d)) && AllSpace(style.between(d)) && AllSpace(style.close(d)))
    && AllSpace(style.colon)
  }

  function Literal(doc: Doc): string
    requires doc.Null? || doc.Bool?
  {
    if doc.Null? then "null" else if doc.b then "true" else "false"
  }

  function Print(style: Style, doc: Doc, depth: nat): string
    decreases doc
  {
    match doc
    case Null => Literal(doc)
    case Bool(_) => Literal(doc)
    case Number(n) => Spell(n)
    case Text(q) => "\"" + q.body + "\""
    case Array(items) =>
      if items == [] then "[]"
      else "[" + style.open(depth) + PrintItems(style, items, depth) + style.close(depth) + "]"
    case Object(members) =>
      if members == [] then "{}"
      else "{" + style.open(depth) + PrintMembers(style, members, depth) + style.close(depth) + "}"
  }

  function PrintItems(style: Style, items: seq<Doc>, depth: nat): string
    requires items != []
    decreases items
  {
    if |items| == 1 then Print(style, items[0], depth + 1)
    else Print(style, items[0], depth + 1) + "," + style.between(depth) + PrintItems(style, items[1..], depth)
  }

  function PrintMembers(style: Style, members: seq<Member>, depth: nat): string
    requires members != []
    decreases members
  {
    if |members| == 1 then PrintMember(style, members[0], depth)
    else PrintMember(style, members[0], depth) + "," + style.between(depth) + PrintMembers(style, members[1..], depth)
  }

  function PrintMember(style: Style, m: Member, depth: nat): string
    decreases m
  {
    match m case Member(key, value) => "\"" + key.body + "\"" + ":" + style.colon + Print(style, value, depth + 1)
  }

  // ----- the same text with what follows it, in the form that scanning peels off -----

  function PrintTo(style: Style, doc: Doc, depth: nat, rest: string): string
    decreases doc
  {
    match doc
    case Null => Literal(doc) + rest
    case Bool(_) => Literal(doc) + rest
    case Number(n) => Spell(n) + rest
    case Text(q) => "\"" + (q.body + ("\"" + rest))
    case Array(items) =>
      if items == [] then "[" + ("]" + rest)
      else "[" + (style.open(depth) + PrintItemsTo(style, items, depth, style.close(depth) + ("]" + rest)))
    case Object(members) =>
      if members == [] then "{" + ("}" + rest)
      else "{" + (style.open(depth) + PrintMembersTo(style, members, depth, style.close(depth) + ("}" + rest)))
  }

  function PrintItemsTo(style: Style, items: seq<Doc>, depth: nat, rest: string): string
    requires items != []
    decreases items
  {
    if |items| == 1 then PrintTo(style, items[0], depth + 1, rest)
    else PrintTo(style, items[0], depth + 1, "," + (style.between(depth) + PrintItemsTo(style, items[1..], depth, rest)))
  }

  function PrintMembersTo(style: Style, members: seq<Member>, depth: nat, rest: string): string
    requires members != []
    decreases members
  {
    if |members| == 1 then PrintMemberTo(style, members[0], depth, rest)
    else PrintMemberTo(style, members[0], depth, "," + (style.between(depth) + PrintMembersTo(style, members[1..], depth, rest)))
  }

  function PrintMemberTo(style: Style, m: Member, depth: nat, rest: string): string
    decreases m
  {
    match m case Member(key, value) =>
      "\"" + (key.body + ("\"" + (":" + (style.colon + PrintTo(style, value, depth + 1, rest)))))
  }

  lemma Join3(a: string, b: string, c: string)
    ensures a + b + c == a + (b + c)
  {
  }

  lemma Join5(a: string, b: string, c: string, d: string, e: string)
    ensures a + b + c + d + e == a + (b + (c + (d + e)))
  {
  }

  lemma {:induction false} PrintToIsPrint(style: Style, doc: Doc, depth: nat, rest: string)
    ensures PrintTo(style, doc, depth, rest) == Print(style, doc, depth) + rest
    decreases doc
  {
    match doc {
      case Text(q) => Join3("\"", q.body, "\""); Join3("\"", q.body, "\"" + rest); Join3("\"" + q.body, "\"", rest);
      case Array(items) =>
        if items != [] {
          var close := style.close(depth) + ("]" + rest);
          PrintItemsToIsPrint(style, items, depth, close);
          Bracket("[", style.open(depth), PrintItems(style, items, depth), style.close(depth), "]", rest);
        }
      case Object(members) =>
        if members != [] {
          var close := style.close(depth) + ("}" + rest);
          PrintMembersToIsPrint(style, members, depth, close);
          Bracket("{", style.open(depth), PrintMembers(style, members, depth), style.close(depth), "}", rest);
        }
      case _ =>
    }
  }

  lemma Bracket(a: string, b: string, c: string, d: string, e: string, rest: string)
    ensures a + b + c + d + e + rest == a + (b + (c + (d + (e + rest))))
  {
  }

  lemma {:induction false} PrintItemsToIsPrint(style: Style, items: seq<Doc>, depth: nat, rest: string)
    requires items != []
    ensures PrintItemsTo(style, items, depth, rest) == PrintItems(style, items, depth) + rest
    decreases items
  {
    if |items| == 1 {
      PrintToIsPrint(style, items[0], depth + 1, rest);
    } else {
      PrintItemsToIsPrint(style, items[1..], depth, rest);
      var more := PrintItemsTo(style, items[1..], depth, rest);
      PrintToIsPrint(style, items[0], depth + 1, "," + (style.between(depth) + more));
      Join5(Print(style, items[0], depth + 1), ",", style.between(depth), PrintItems(style, items[1..], depth), rest);
    }
  }

  lemma {:induction false} PrintMembersToIsPrint(style: Style, members: seq<Member>, depth: nat, rest: string)
    requires members != []
    ensures PrintMembersTo(style, members, depth, rest) == PrintMembers(style, members, depth) + rest
    decreases members
  {
    if |members| == 1 {
      PrintMemberToIsPrint(style, members[0], depth, rest);
    } else {
      PrintMembersToIsPrint(style, members[1..], depth, rest);
      var more := PrintMembersTo(style, members[1..], depth, rest);
      PrintMemberToIsPrint(style, members[0], depth, "," + (style.between(depth) + more));
      Join5(PrintMember(style, members[0], depth), ",", style.between(depth), PrintMembers(style, members[1..], depth), rest);
    }
  }

  lemma {:induction false} PrintMemberToIsPrint(style: Style, m: Member, depth: nat, rest: string)
    ensures PrintMemberTo(style, m, depth, rest) == PrintMember(style, m, depth) + rest
    decreases m
  {
    match m case Member(key, value) =>
      PrintToIsPrint(style, value, depth + 1, rest);
      var tail := style.colon + Print(style, value, depth + 1);
      Join5("\"", key.body, "\"", ":", style.colon + (Print(style, value, depth + 1) + rest));
      Join3(style.colon, Print(style, value, depth + 1), rest);
      Join5("\"", key.body, "\"", ":", tail);
      Join3("\"" + key.body + "\"" + ":", style.colon, Print(style, value, depth + 1));
      Join5("\"", key.body, "\"", ":", tail + rest);
      Join3("\"" + key.body + "\"" + ":", tail, rest);
  }
}
