/** Where the printer puts white space (src/json.rs): nowhere when compact, and when indented a line for every element. */
module JsonLayout {
  import opened JsonLexer
  import opened JsonDocuments
  import opened JsonGrammar
  import opened JsonScanning
  import opened JsonUnambiguous

  // ----- compact: no white space outside strings -----

  ghost predicate NoSpace(s: string)
    decreases |s|
  {
    s == "" ||
    if s[0] == '"' then NoSpace(Drop(s, 1 + BodyLength(s[1..]))) else !IsJsonSpace(s[0]) && NoSpace(s[1..])
  }

  lemma {:induction false} NoSpaceIn(t: string, rest: string)
    requires (forall i :: 0 <= i < |t| ==> t[i] != '"' && !IsJsonSpace(t[i])) && NoSpace(rest)
    ensures NoSpace(t + rest)
  {
    if t == "" {
      assert t + rest == rest;
    } else {
      assert (t + rest)[1..] == t[1..] + rest;
      NoSpaceIn(t[1..], rest);
    }
  }

  lemma NoSpaceQuoted(body: string, rest: string)
    requires ValidBody(body) && NoSpace(rest)
    ensures NoSpace("\"" + (body + ("\"" + rest)))
  {
    var s := "\"" + (body + ("\"" + rest));
    BodyReach(body, rest);
    assert s[1..] == body + ("\"" + rest);
    assert Drop(s, |body| + 2) == rest;
  }

  lemma {:induction false} CompactDoc(doc: Doc, depth: nat, rest: string)
    requires ValidDoc(doc) && NoSpace(rest)
    ensures NoSpace(PrintTo(Compact(), doc, depth, rest))
    decreases doc
  {
    match doc {
      case Null => NoSpaceIn(Literal(doc), rest);
      case Bool(_) => NoSpaceIn(Literal(doc), rest);
      case Number(n) => SpelledInNumber(n); NoSpaceIn(Spell(n), rest);
      case Text(q) => NoSpaceQuoted(q.body, rest);
      case Array(items) =>
        NoSpaceIn("]", rest);
        if items == [] {
          NoSpaceIn("[", "]" + rest);
        } else {
          assert "" + ("]" + rest) == "]" + rest;
          CompactItems(items, depth, "]" + rest);
          assert "" + PrintItemsTo(Compact(), items, depth, "]" + rest) == PrintItemsTo(Compact(), items, depth, "]" + rest);
          NoSpaceIn("[", PrintItemsTo(Compact(), items, depth, "]" + rest));
        }
      case Object(members) =>
        NoSpaceIn("}", rest);
        if members == [] {
          NoSpaceIn("{", "}" + rest);
        } else {
          assert "" + ("}" + rest) == "}" + rest;
          CompactMembers(members, depth, "}" + rest);
          assert "" + PrintMembersTo(Compact(), members, depth, "}" + rest) == PrintMembersTo(Compact(), members, depth, "}" + rest);
          NoSpaceIn("{", PrintMembersTo(Compact(), members, depth, "}" + rest));
        }
    }
  }

  lemma {:induction false} CompactItems(items: seq<Doc>, depth: nat, rest: string)
    requires items != [] && (forall i :: 0 <= i < |items| ==> ValidDoc(items[i])) && NoSpace(rest)
    ensures NoSpace(PrintItemsTo(Compact(), items, depth, rest))
    decreases items
  {
    if |items| == 1 {
      CompactDoc(items[0], depth + 1, rest);
    } else {
      var more := PrintItemsTo(Compact(), items[1..], depth, rest);
      CompactItems(items[1..], depth, rest);
      assert "" + more == more;
      NoSpaceIn(",", more);
      CompactDoc(items[0], depth + 1, "," + more);
    }
  }

  lemma {:induction false} CompactMembers(members: seq<Member>, depth: nat, rest: string)
    requires members != [] && (forall i :: 0 <= i < |members| ==> ValidMember(members[i])) && NoSpace(rest)
    ensures NoSpace(PrintMembersTo(Compact(), members, depth, rest))
    decreases members
  {
    if |members| == 1 {
      CompactMember(members[0], depth, rest);
    } else {
      var more := PrintMembersTo(Compact(), members[1..], depth, rest);
      CompactMembers(members[1..], depth, rest);
      assert "" + more == more;
      NoSpaceIn(",", more);
      CompactMember(members[0], depth, "," + more);
    }
  }

  lemma {:induction false} CompactMember(m: Member, depth: nat, rest: string)
    requires ValidMember(m) && NoSpace(rest)
    ensures NoSpace(PrintMemberTo(Compact(), m, depth, rest))
    decreases m
  {
    match m case Member(key, value) =>
      var printed := PrintTo(Compact(), value, depth + 1, rest);
      CompactDoc(value, depth + 1, rest);
      assert "" + printed == printed;
      NoSpaceIn(":", printed);
      NoSpaceQuoted(key.body, ":" + printed);
  }

  /** Compact printing has no white space outside strings. */
  lemma CompactHasNoSpace(doc: Doc)
    requires ValidDoc(doc)
    ensures NoSpace(Print(Compact(), doc, 0))
  {
    CompactDoc(doc, 0, "");
    PrintToIsPrint(Compact(), doc, 0, "");
    assert Print(Compact(), doc, 0) + "" == Print(Compact(), doc, 0);
  }

  // ----- indented -----

  /** Just after an opening bracket, at the start of a line past its blanks, or elsewhere. */
  datatype At = Opened | LineStart | Within

  function Blanks(s: string): (n: nat)
    ensures n <= |s|
  {
    if s != "" && s[0] == ' ' then 1 + Blanks(s[1..]) else 0
  }

  predicate Closes(c: char) { c == ']' || c == '}' }

  /**
   Outside strings, inside `depth` brackets: after an opening bracket comes its
   closing bracket or a line, after a comma a line, and before any other closing
   bracket a line; a line starts with exactly `width` blanks for every bracket
   that is open there, not counting the one that the line closes; and a colon is
   followed by one blank. There is no other white space.
   */
  ghost predicate LaidOut(width: nat, s: string, depth: nat, at: At)
    decreases |s|
  {
    s == "" ||
    if s[0] == '"' then at != Opened && LaidOut(width, Drop(s, 1 + BodyLength(s[1..])), depth, Within)
    else if s[0] == '[' || s[0] == '{' then at != Opened && LaidOut(width, s[1..], depth + 1, Opened)
    else if Closes(s[0]) then at != Within && depth > 0 && LaidOut(width, s[1..], depth - 1, Within)
    else if s[0] == ',' then at == Within && |s| > 1 && s[1] == '\n' && LaidOut(width, s[1..], depth, Within)
    else if s[0] == ':' then at == Within && |s| > 1 && s[1] == ' ' && LaidOut(width, s[2..], depth, Within)
    else if s[0] == '\n' then
      var line := s[1 + Blanks(s[1..])..];
      && at != LineStart && depth > 0 && line != "" && (at == Opened ==> !Closes(line[0]))
      && Blanks(s[1..]) == width * (if Closes(line[0]) then depth - 1 else depth)
      && LaidOut(width, line, depth, LineStart)
    else at != Opened && !IsJsonSpace(s[0]) && LaidOut(width, s[1..], depth, Within)
  }

  predicate PlainText(t: string) { forall i :: 0 <= i < |t| ==> t[i] !in "\"[]{},:" && !IsJsonSpace(t[i]) }

  lemma {:induction false} LaidPlain(width: nat, t: string, rest: string, depth: nat, at: At)
    requires t != "" && PlainText(t) && at != Opened && LaidOut(width, rest, depth, Within)
    ensures LaidOut(width, t + rest, depth, at)
    decreases t
  {
    assert (t + rest)[1..] == t[1..] + rest;
    if |t| == 1 {
      assert t[1..] + rest == rest;
    } else {
      LaidPlain(width, t[1..], rest, depth, Within);
    }
  }

  lemma LaidQuoted(width: nat, body: string, rest: string, depth: nat, at: At)
    requires ValidBody(body) && at != Opened && LaidOut(width, rest, depth, Within)
    ensures LaidOut(width, "\"" + (body + ("\"" + rest)), depth, at)
  {
    var s := "\"" + (body + ("\"" + rest));
    BodyReach(body, rest);
    assert s[1..] == body + ("\"" + rest);
    assert Drop(s, |body| + 2) == rest;
  }

  lemma {:induction false} BlanksOf(n: nat, rest: string)
    requires rest != "" && rest[0] != ' '
    ensures Blanks(Spaces(n) + rest) == n == |Spaces(n)|
  {
    if n == 0 {
      assert Spaces(0) + rest == rest;
    } else {
      assert (Spaces(n) + rest)[1..] == Spaces(n - 1) + rest;
      BlanksOf(n - 1, rest);
    }
  }

  lemma LaidLine(width: nat, n: nat, line: string, depth: nat, at: At)
    requires depth > 0 && line != "" && line[0] != ' ' && at != LineStart && (at == Opened ==> !Closes(line[0]))
    requires n == width * (if Closes(line[0]) then depth - 1 else depth)
    requires LaidOut(width, line, depth, LineStart)
    ensures LaidOut(width, "\n" + Spaces(n) + line, depth, at)
  {
    var s := "\n" + Spaces(n) + line;
    BlanksOf(n, line);
    assert s[1..] == Spaces(n) + line;
    assert s[1 + n..] == line;
  }

  lemma PrintedStart(width: nat, doc: Doc, depth: nat, rest: string)
    requires ValidDoc(doc)
    ensures var s := PrintTo(Indented(width), doc, depth, rest); s != "" && s[0] != ' ' && !Closes(s[0])
  {
    StringifyStyles(width);
    PrintedReads(Indented(width), doc, depth, rest);
    FirstCharacter(PrintTo(Indented(width), doc, depth, rest), doc, rest);
  }

  lemma LaidClose(width: nat, close: string, rest: string, depth: nat)
    requires |close| == 1 && Closes(close[0]) && LaidOut(width, rest, depth, Within)
    ensures LaidOut(width, close + rest, depth + 1, Opened)
    ensures LaidOut(width, Indented(width).close(depth) + (close + rest), depth + 1, Within)
  {
    assert (close + rest)[1..] == rest;
    LaidLine(width, width * depth, close + rest, depth + 1, Within);
  }

  lemma LaidOpen(width: nat, open: string, inner: string, depth: nat, at: At)
    requires (open == "[" || open == "{") && at != Opened && inner != "" && inner[0] != ' ' && !Closes(inner[0])
    requires LaidOut(width, inner, depth + 1, LineStart)
    ensures LaidOut(width, open + (Indented(width).open(depth) + inner), depth, at)
  {
    LaidLine(width, width * (depth + 1), inner, depth + 1, Opened);
    Drop1(open, Indented(width).open(depth) + inner);
  }

  lemma CommaThenLine(width: nat, line: string, depth: nat)
    requires line != "" && line[0] == '\n' && LaidOut(width, line, depth, Within)
    ensures LaidOut(width, "," + line, depth, Within)
  {
    var s := "," + line;
    assert s[0] == ',' && s[1] == line[0] && s[1..] == line;
  }

  lemma LaidComma(width: nat, more: string, depth: nat)
    requires more != "" && more[0] != ' ' && !Closes(more[0]) && LaidOut(width, more, depth + 1, LineStart)
    ensures LaidOut(width, "," + (Indented(width).between(depth) + more), depth + 1, Within)
  {
    LaidLine(width, width * (depth + 1), more, depth + 1, Within);
    CommaThenLine(width, Indented(width).between(depth) + more, depth + 1);
  }

  lemma {:induction false} LaidDoc(width: nat, doc: Doc, depth: nat, rest: string, at: At)
    requires ValidDoc(doc) && at != Opened && LaidOut(width, rest, depth, Within)
    ensures LaidOut(width, PrintTo(Indented(width), doc, depth, rest), depth, at)
    decreases doc
  {
    var style := Indented(width);
    match doc {
      case Null => LaidPlain(width, Literal(doc), rest, depth, at);
      case Bool(_) => LaidPlain(width, Literal(doc), rest, depth, at);
      case Number(n) => SpelledInNumber(n); LaidPlain(width, Spell(n), rest, depth, at);
      case Text(q) => LaidQuoted(width, q.body, rest, depth, at);
      case Array(items) =>
        LaidClose(width, "]", rest, depth);
        if items == [] {
          Drop1("[", "]" + rest);
        } else {
          LaidItems(width, items, depth, style.close(depth) + ("]" + rest));
          LaidOpen(width, "[", PrintItemsTo(style, items, depth, style.close(depth) + ("]" + rest)), depth, at);
        }
      case Object(members) =>
        LaidClose(width, "}", rest, depth);
        if members == [] {
          Drop1("{", "}" + rest);
        } else {
          LaidMembers(width, members, depth, style.close(depth) + ("}" + rest));
          LaidOpen(width, "{", PrintMembersTo(style, members, depth, style.close(depth) + ("}" + rest)), depth, at);
        }
    }
  }

  lemma {:induction false} LaidItems(width: nat, items: seq<Doc>, depth: nat, rest: string)
    requires items != [] && (forall i :: 0 <= i < |items| ==> ValidDoc(items[i])) && LaidOut(width, rest, depth + 1, Within)
    ensures var s := PrintItemsTo(Indented(width), items, depth, rest);
            s != "" && s[0] != ' ' && !Closes(s[0]) && LaidOut(width, s, depth + 1, LineStart)
    decreases items
  {
    if |items| == 1 {
      LaidDoc(width, items[0], depth + 1, rest, LineStart);
      PrintedStart(width, items[0], depth + 1, rest);
    } else {
      var more := PrintItemsTo(Indented(width), items[1..], depth, rest);
      LaidItems(width, items[1..], depth, rest);
      LaidComma(width, more, depth);
      var next := "," + (Indented(width).between(depth) + more);
      LaidDoc(width, items[0], depth + 1, next, LineStart);
      PrintedStart(width, items[0], depth + 1, next);
    }
  }

  lemma {:induction false} LaidMembers(width: nat, members: seq<Member>, depth: nat, rest: string)
    requires members != [] && (forall i :: 0 <= i < |members| ==> ValidMember(members[i])) && LaidOut(width, rest, depth + 1, Within)
    ensures var s := PrintMembersTo(Indented(width), members, depth, rest);
            s != "" && s[0] != ' ' && !Closes(s[0]) && LaidOut(width, s, depth + 1, LineStart)
    decreases members
  {
    if |members| == 1 {
      LaidMember(width, members[0], depth, rest);
    } else {
      var more := PrintMembersTo(Indented(width), members[1..], depth, rest);
      LaidMembers(width, members[1..], depth, rest);
      LaidComma(width, more, depth);
      LaidMember(width, members[0], depth, "," + (Indented(width).between(depth) + more));
    }
  }

  lemma {:induction false} LaidMember(width: nat, m: Member, depth: nat, rest: string)
    requires ValidMember(m) && LaidOut(width, rest, depth + 1, Within)
    ensures var s := PrintMemberTo(Indented(width), m, depth, rest);
            s != "" && s[0] == '"' && LaidOut(width, s, depth + 1, LineStart)
    decreases m
  {
    match m case Member(key, value) =>
      var printed := PrintTo(Indented(width), value, depth + 1, rest);
      LaidDoc(width, value, depth + 1, rest, Within);
      var colon := ":" + (" " + printed);
      assert colon[0] == ':' && colon[1] == ' ' && colon[2..] == printed;
      LaidQuoted(width, key.body, colon, depth + 1, LineStart);
  }

  /** Indented printing is laid out by depth. */
  lemma IndentedIsLaidOut(width: nat, doc: Doc)
    requires ValidDoc(doc)
    ensures LaidOut(width, Print(Indented(width), doc, 0), 0, Within)
  {
    LaidDoc(width, doc, 0, "", Within);
    PrintToIsPrint(Indented(width), doc, 0, "");
    assert Print(Indented(width), doc, 0) + "" == Print(Indented(width), doc, 0);
  }
}
