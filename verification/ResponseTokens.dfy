/**
 The response-file tokenizer of src/cli.rs: words separated by white space, with
 quotes, a backslash that escapes only white space, quotes, `#` and itself, and
 comments that start where a word could.
 */
module ResponseTokens {
  import opened Wrappers

  /** The Unicode White_Space property. */
  predicate IsSpace(c: char) {
    var n := c as int;
    || 0x09 <= n <= 0x0D || n == 0x20 || n == 0x85 || n == 0xA0 || n == 0x1680
    || 0x2000 <= n <= 0x200A || n == 0x2028 || n == 0x2029 || n == 0x202F || n == 0x205F || n == 0x3000
  }

  datatype Lexer = Lexer(tokens: seq<string>, current: string, quote: Option<char>, escaped: bool, comment: bool)

  const START := Lexer([], "", None, false, false)

  /** A backslash escapes when nothing, white space, a quote, `#` or a backslash follows. */
  predicate Escapes(next: Option<char>) {
    next.None? || IsSpace(next.value) || next.value in "\\'\"#"
  }

  function Push(l: Lexer, c: char): Lexer { l.(current := l.current + [c]) }

  /** A word that has begun becomes a token. */
  function Flush(l: Lexer): Lexer {
    if l.current == "" then l else l.(tokens := l.tokens + [l.current], current := "")
  }

  function Step(l: Lexer, c: char, next: Option<char>): Lexer {
    if l.comment then (if c == '\n' then l.(comment := false) else l)
    else if l.escaped then Push(l, c).(escaped := false)
    else if l.quote.Some? then
      (if c == '\\' then (if Escapes(next) then l.(escaped := true) else Push(l, c))
       else if c == l.quote.value then l.(quote := None)
       else Push(l, c))
    else if c == '\\' then (if Escapes(next) then l.(escaped := true) else Push(l, c))
    else if c == '\'' || c == '"' then l.(quote := Some(c))
    else if c == '#' && l.current == "" then l.(comment := true)
    else if IsSpace(c) then Flush(l)
    else Push(l, c)
  }

  function First(s: string): Option<char> { if s == "" then None else Some(s[0]) }

  function Scan(l: Lexer, s: string): Lexer
    decreases s
  {
    if s == "" then l else Scan(Step(l, s[0], First(s[1..])), s[1..])
  }

  function Finish(l: Lexer): Result<seq<string>> {
    if l.escaped || l.quote.Some? then Err else Ok(Flush(l).tokens)
  }

  /** The tokens of a response file, or an error for a dangling escape or an open quote. */
  function Tokens(source: string): Result<seq<string>> { Finish(Scan(START, source)) }

  method Tokenize(source: string) returns (r: Result<seq<string>>)
    ensures r == Tokens(source)
  {
    var tokens: seq<string>, current, quote: Option<char>, escaped, comment := [], "", None, false, false;
    var i := 0;
    while i < |source|
      invariant 0 <= i <= |source|
      invariant Scan(Lexer(tokens, current, quote, escaped, comment), source[i..]) == Scan(START, source)
    {
      var c := source[i];
      var next := if i + 1 < |source| then Some(source[i + 1]) else None;
      assert source[i..][1..] == source[i + 1..] && First(source[i + 1..]) == next;
      i := i + 1;
      if comment {
        if c == '\n' {
          comment := false;
        }
        continue;
      }
      if escaped {
        current := current + [c];
        escaped := false;
        continue;
      }
      if quote.Some? {
        if c == '\\' && Escapes(next) {
          escaped := true;
        } else if c != '\\' && c == quote.value {
          quote := None;
        } else {
          current := current + [c];
        }
        continue;
      }
      if c == '\\' && Escapes(next) {
        escaped := true;
      } else if c == '\\' {
        current := current + [c];
      } else if c == '\'' || c == '"' {
        quote := Some(c);
      } else if c == '#' && current == "" {
        comment := true;
      } else if IsSpace(c) {
        if current != "" {
          tokens, current := tokens + [current], "";
        }
      } else {
        current := current + [c];
      }
    }
    if escaped || quote.Some? {
      return Err;
    }
    if current != "" {
      tokens := tokens + [current];
    }
    r := Ok(tokens);
  }

  // ----- writing -----

  /** A character of a word, as it stands or after a backslash. */
  datatype Item = Raw(c: char) | Esc(c: char)

  function TextOf(items: seq<Item>): string {
    if items == [] then "" else [items[0].c] + TextOf(items[1..])
  }

  function ItemWritten(item: Item): string { match item case Raw(c) => [c] case Esc(c) => ['\\', c] }

  /** What a backslash can stand before: white space, either quote, the comment sign and a backslash. */
  predicate Escapable(c: char) { IsSpace(c) || c == '\'' || c == '"' || c == '#' || c == '\\' }

  function ItemsWritten(items: seq<Item>): string {
    if items == [] then "" else ItemWritten(items[0]) + ItemsWritten(items[1..])
  }

  /**
   The items can stand in a row, inside the quote if there is one: only what a
   backslash escapes follows one, a backslash that is meant as it stands is
   followed by something else, and the quote, or outside quotes any quote or
   white space, needs a backslash.
   */
  predicate Fit(items: seq<Item>, quote: Option<char>) {
    items == [] ||
    (&& (match items[0]
         case Esc(c) => Escapable(c)
         case Raw(c) =>
           if c == '\\' then |items| > 1 && items[1].Raw? && !Escapable(items[1].c)
           else if quote.Some? then c != quote.value
           else !IsSpace(c) && c != '\'' && c != '"')
     && Fit(items[1..], quote))
  }

  /** Part of a word: bare, or inside quotes of either kind. */
  datatype Segment = Bare(items: seq<Item>) | Quoted(items: seq<Item>, quote: char)

  function SegmentWritten(p: Segment): string {
    match p
    case Bare(items) => ItemsWritten(items)
    case Quoted(items, quote) => [quote] + ItemsWritten(items) + [quote]
  }

  predicate IsQuote(c: char) { c == '\'' || c == '"' }

  /** A `#` would start a comment where the word has no text yet. */
  predicate StartsComment(before: string, items: seq<Item>) { before == "" && items != [] && items[0] == Raw('#') }

  predicate SegmentFits(before: string, p: Segment) {
    match p
    case Bare(items) => Fit(items, None) && !StartsComment(before, items)
    case Quoted(items, quote) => IsQuote(quote) && Fit(items, Some(quote))
  }

  function WordText(word: seq<Segment>): string {
    if word == [] then "" else TextOf(word[0].items) + WordText(word[1..])
  }

  function WordWritten(word: seq<Segment>): string {
    if word == [] then "" else SegmentWritten(word[0]) + WordWritten(word[1..])
  }

  predicate WordFits(before: string, word: seq<Segment>)
    decreases word
  {
    word == [] || (SegmentFits(before, word[0]) && WordFits(before + TextOf(word[0].items), word[1..]))
  }

  /** What a response file is made of: words, and comments to the end of the line. */
  datatype Piece = Word(segments: seq<Segment>) | Comment(text: string)

  predicate Valid(p: Piece) {
    match p
    case Word(segments) => WordFits("", segments)
    case Comment(text) => '\n' !in text
  }

  function Written(p: Piece): string {
    match p
    case Word(segments) => WordWritten(segments)
    case Comment(text) => "#" + text + "\n"
  }

  /** The token a piece stands for; a comment stands for none, and an empty word is dropped. */
  function TokensOf(p: Piece): seq<string> {
    match p
    case Word(segments) => if WordText(segments) == "" then [] else [WordText(segments)]
    case Comment(_) => []
  }

  function AllTokens(pieces: seq<Piece>): seq<string> {
    if pieces == [] then [] else TokensOf(pieces[0]) + AllTokens(pieces[1..])
  }

  predicate Blank(s: string) { forall i :: 0 <= i < |s| ==> IsSpace(s[i]) }

  /** White space after every piece; after a word there must be some. */
  predicate Spaced(pieces: seq<Piece>, gaps: seq<string>) {
    && |pieces| == |gaps|
    && forall i :: 0 <= i < |pieces| ==> Valid(pieces[i]) && Blank(gaps[i]) && (gaps[i] == "" ==> pieces[i].Comment?)
  }

  function Render(pieces: seq<Piece>, gaps: seq<string>): string
    requires |pieces| == |gaps|
  {
    if pieces == [] then "" else Written(pieces[0]) + (gaps[0] + Render(pieces[1..], gaps[1..]))
  }

  // ----- reading it back -----

  predicate Plain(l: Lexer) { l.quote.None? && !l.escaped && !l.comment }

  lemma ScanOne(l: Lexer, c: char, s: string)
    ensures Scan(l, [c] + s) == Scan(Step(l, c, First(s)), s)
  {
    assert ([c] + s)[1..] == s;
  }

  /** The lexer is inside a word, in the quote if there is one. */
  predicate Inside(l: Lexer, quote: Option<char>) {
    l.quote == quote && !l.escaped && !l.comment && (quote.Some? ==> IsQuote(quote.value))
  }

  lemma ScanEsc(l: Lexer, c: char, quote: Option<char>, rest: string)
    requires Inside(l, quote) && Escapable(c)
    ensures Scan(l, ItemWritten(Esc(c)) + rest) == Scan(Push(l, c), rest)
  {
    assert ['\\', c] + rest == ['\\'] + ([c] + rest);
    ScanOne(l, '\\', [c] + rest);
    ScanOne(l.(escaped := true), c, rest);
  }

  lemma ScanRaw(l: Lexer, items: seq<Item>, quote: Option<char>, rest: string)
    requires items != [] && items[0].Raw? && Inside(l, quote) && Fit(items, quote)
    requires quote.None? ==> !StartsComment(l.current, items)
    ensures Scan(l, [items[0].c] + (ItemsWritten(items[1..]) + rest)) == Scan(Push(l, items[0].c), ItemsWritten(items[1..]) + rest)
  {
    var c, more := items[0].c, ItemsWritten(items[1..]) + rest;
    ScanOne(l, c, more);
    if c == '\\' {
      assert more[0] == items[1].c;
    }
  }

  lemma Associate(a: string, b: string, c: string)
    ensures (a + b) + c == a + (b + c)
  {
  }

  lemma ScanItem(l: Lexer, items: seq<Item>, quote: Option<char>, rest: string)
    requires items != [] && Inside(l, quote) && Fit(items, quote) && (quote.None? ==> !StartsComment(l.current, items))
    ensures Scan(l, ItemsWritten(items) + rest) == Scan(Push(l, items[0].c), ItemsWritten(items[1..]) + rest)
  {
    Associate(ItemWritten(items[0]), ItemsWritten(items[1..]), rest);
    if items[0].Esc? {
      ScanEsc(l, items[0].c, quote, ItemsWritten(items[1..]) + rest);
    } else {
      ScanRaw(l, items, quote, rest);
    }
  }

  /** The items are read back as their characters, whatever follows. */
  lemma {:induction false} ScanItems(l: Lexer, items: seq<Item>, quote: Option<char>, rest: string)
    requires Inside(l, quote) && Fit(items, quote) && (quote.None? ==> !StartsComment(l.current, items))
    ensures Scan(l, ItemsWritten(items) + rest) == Scan(l.(current := l.current + TextOf(items)), rest)
    decreases items
  {
    if items == [] {
      assert ItemsWritten(items) + rest == rest && l.current + TextOf(items) == l.current;
    } else {
      ScanItem(l, items, quote, rest);
      ScanItems(Push(l, items[0].c), items[1..], quote, rest);
      Associate(l.current, [items[0].c], TextOf(items[1..]));
    }
  }

  lemma AroundQuotes(e: string, quote: char, rest: string)
    ensures [quote] + e + [quote] + rest == [quote] + (e + ([quote] + rest))
  {
  }

  lemma ScanQuoted(l: Lexer, items: seq<Item>, quote: char, rest: string)
    requires Plain(l) && IsQuote(quote) && Fit(items, Some(quote))
    ensures Scan(l, SegmentWritten(Quoted(items, quote)) + rest) == Scan(l.(current := l.current + TextOf(items)), rest)
  {
    var e := ItemsWritten(items);
    AroundQuotes(e, quote, rest);
    ScanOne(l, quote, e + ([quote] + rest));
    ScanItems(l.(quote := Some(quote)), items, Some(quote), [quote] + rest);
    ScanOne(l.(quote := Some(quote), current := l.current + TextOf(items)), quote, rest);
  }

  lemma ScanSegment(l: Lexer, p: Segment, rest: string)
    requires Plain(l) && SegmentFits(l.current, p)
    ensures Scan(l, SegmentWritten(p) + rest) == Scan(l.(current := l.current + TextOf(p.items)), rest)
  {
    match p {
      case Bare(items) => ScanItems(l, items, None, rest);
      case Quoted(items, quote) => ScanQuoted(l, items, quote, rest);
    }
  }

  lemma {:induction false} ScanSegments(l: Lexer, word: seq<Segment>, rest: string)
    requires Plain(l) && WordFits(l.current, word)
    ensures Scan(l, WordWritten(word) + rest) == Scan(l.(current := l.current + WordText(word)), rest)
    decreases word
  {
    if word == [] {
      assert WordWritten(word) + rest == rest && l.current + WordText(word) == l.current;
    } else {
      var text, more := TextOf(word[0].items), WordWritten(word[1..]);
      Associate(SegmentWritten(word[0]), more, rest);
      ScanSegment(l, word[0], more + rest);
      ScanSegments(l.(current := l.current + text), word[1..], rest);
      Associate(l.current, text, WordText(word[1..]));
    }
  }

  lemma {:induction false} ScanComment(l: Lexer, t: string, rest: string)
    requires l.comment && '\n' !in t
    ensures Scan(l, t + ("\n" + rest)) == Scan(l.(comment := false), rest)
    ensures Scan(l, t) == l
    decreases t
  {
    if t == "" {
      assert t + ("\n" + rest) == ['\n'] + rest;
      ScanOne(l, '\n', rest);
    } else {
      assert t + ("\n" + rest) == [t[0]] + (t[1..] + ("\n" + rest));
      ScanOne(l, t[0], t[1..] + ("\n" + rest));
      assert t == [t[0]] + t[1..];
      ScanOne(l, t[0], t[1..]);
      ScanComment(l, t[1..], rest);
    }
  }

  lemma {:induction false} ScanBlank(l: Lexer, gap: string, rest: string)
    requires Plain(l) && Blank(gap) && (gap == "" ==> l.current == "")
    ensures Scan(l, gap + rest) == Scan(Flush(l), rest)
    decreases gap
  {
    if gap == "" {
      assert gap + rest == rest;
    } else {
      assert gap + rest == [gap[0]] + (gap[1..] + rest);
      ScanOne(l, gap[0], gap[1..] + rest);
      ScanBlank(Flush(l), gap[1..], rest);
    }
  }

  lemma ScanWord(l: Lexer, word: seq<Segment>, rest: string)
    requires Plain(l) && l.current == "" && WordFits("", word)
    ensures Scan(l, WordWritten(word) + rest) == Scan(l.(current := WordText(word)), rest)
  {
    assert "" + WordText(word) == WordText(word);
    ScanSegments(l, word, rest);
  }

  lemma FlushWord(l: Lexer, word: seq<Segment>)
    requires l.current == ""
    ensures Flush(l.(current := WordText(word))) == l.(tokens := l.tokens + TokensOf(Word(word)))
  {
    assert l.tokens + [] == l.tokens;
  }

  lemma ScanPiece(l: Lexer, p: Piece, gap: string, rest: string)
    requires Plain(l) && l.current == "" && Valid(p) && Blank(gap) && (gap == "" ==> p.Comment?)
    ensures Scan(l, Written(p) + (gap + rest)) == Scan(l.(tokens := l.tokens + TokensOf(p)), rest)
  {
    if p.Comment? {
      assert Written(p) + (gap + rest) == ['#'] + (p.text + ("\n" + (gap + rest)));
      ScanOne(l, '#', p.text + ("\n" + (gap + rest)));
      ScanComment(l.(comment := true), p.text, gap + rest);
      ScanBlank(l, gap, rest);
      assert l.tokens + TokensOf(p) == l.tokens;
    } else {
      ScanWord(l, p.segments, gap + rest);
      ScanBlank(l.(current := WordText(p.segments)), gap, rest);
      FlushWord(l, p.segments);
    }
  }

  lemma RenderFirst(pieces: seq<Piece>, gaps: seq<string>, rest: string)
    requires |pieces| == |gaps| && pieces != []
    ensures Render(pieces, gaps) + rest == Written(pieces[0]) + (gaps[0] + (Render(pieces[1..], gaps[1..]) + rest))
  {
  }

  lemma TokensFirst(before: seq<string>, pieces: seq<Piece>)
    requires pieces != []
    ensures before + TokensOf(pieces[0]) + AllTokens(pieces[1..]) == before + AllTokens(pieces)
  {
  }

  lemma {:induction false} ScanRender(l: Lexer, pieces: seq<Piece>, gaps: seq<string>, rest: string)
    requires Plain(l) && l.current == "" && Spaced(pieces, gaps)
    ensures Scan(l, Render(pieces, gaps) + rest) == Scan(l.(tokens := l.tokens + AllTokens(pieces)), rest)
    decreases pieces
  {
    if pieces == [] {
      assert Render(pieces, gaps) + rest == rest && l.tokens + [] == l.tokens;
    } else {
      RenderFirst(pieces, gaps, rest);
      ScanPiece(l, pieces[0], gaps[0], Render(pieces[1..], gaps[1..]) + rest);
      ScanRender(l.(tokens := l.tokens + TokensOf(pieces[0])), pieces[1..], gaps[1..], rest);
      TokensFirst(l.tokens, pieces);
    }
  }

  /** Up to some point a file is leading white space and spaced pieces; what follows is read from a clean state. */
  lemma ScanFile(lead: string, pieces: seq<Piece>, gaps: seq<string>, rest: string)
    requires Blank(lead) && Spaced(pieces, gaps)
    ensures Scan(START, lead + (Render(pieces, gaps) + rest)) == Scan(START.(tokens := AllTokens(pieces)), rest)
  {
    ScanBlank(START, lead, Render(pieces, gaps) + rest);
    ScanRender(START, pieces, gaps, rest);
    assert [] + AllTokens(pieces) == AllTokens(pieces);
  }

  /**
   Tokenizing a file made of pieces and white space returns exactly the words,
   whatever they contain; the last word needs no white space after it and the
   last comment no end of line.
   */
  lemma TokenizeWritten(lead: string, pieces: seq<Piece>, gaps: seq<string>, last: Piece)
    requires Blank(lead) && Spaced(pieces, gaps) && Valid(last)
    ensures Tokens(lead + (Render(pieces, gaps) + "")) == Ok(AllTokens(pieces))
    ensures last.Comment? ==> Tokens(lead + (Render(pieces, gaps) + ("#" + last.text))) == Ok(AllTokens(pieces))
    ensures !last.Comment? ==> Tokens(lead + (Render(pieces, gaps) + Written(last))) == Ok(AllTokens(pieces) + TokensOf(last))
  {
    var l := START.(tokens := AllTokens(pieces));
    ScanFile(lead, pieces, gaps, "");
    if last.Comment? {
      ScanFile(lead, pieces, gaps, "#" + last.text);
      ScanOne(l, '#', last.text);
      ScanComment(l.(comment := true), last.text, "");
    } else {
      ScanFile(lead, pieces, gaps, Written(last));
      assert Written(last) + "" == Written(last);
      ScanWord(l, last.segments, "");
      FlushWord(l, last.segments);
    }
  }

  /** An open quote or a lone backslash at the end, in quotes or not, is an error, whatever came before in the word and the file. */
  lemma UnfinishedFails(lead: string, pieces: seq<Piece>, gaps: seq<string>, word: seq<Segment>, items: seq<Item>, quote: char)
    requires Blank(lead) && Spaced(pieces, gaps) && WordFits("", word) && IsQuote(quote) && Fit(items, Some(quote))
    ensures Tokens(lead + (Render(pieces, gaps) + (WordWritten(word) + "\\"))) == Err
    ensures Tokens(lead + (Render(pieces, gaps) + (WordWritten(word) + ([quote] + (ItemsWritten(items) + ""))))) == Err
    ensures Tokens(lead + (Render(pieces, gaps) + (WordWritten(word) + ([quote] + (ItemsWritten(items) + "\\"))))) == Err
  {
    var l := START.(tokens := AllTokens(pieces), current := WordText(word));
    OpenWord(lead, pieces, gaps, word, "\\");
    ScanLoneBackslash(l);
    OpenQuote(lead, pieces, gaps, word, items, quote, "");
    OpenQuote(lead, pieces, gaps, word, items, quote, "\\");
    ScanLoneBackslash(l.(quote := Some(quote), current := l.current + TextOf(items)));
  }

  lemma ScanLoneBackslash(l: Lexer)
    requires !l.escaped && !l.comment
    ensures Scan(l, "\\") == l.(escaped := true)
  {
    ScanOne(l, '\\', "");
    assert ['\\'] + "" == "\\";
  }

  lemma OpenWord(lead: string, pieces: seq<Piece>, gaps: seq<string>, word: seq<Segment>, rest: string)
    requires Blank(lead) && Spaced(pieces, gaps) && WordFits("", word)
    ensures Scan(START, lead + (Render(pieces, gaps) + (WordWritten(word) + rest)))
         == Scan(START.(tokens := AllTokens(pieces), current := WordText(word)), rest)
  {
    ScanFile(lead, pieces, gaps, WordWritten(word) + rest);
    ScanWord(START.(tokens := AllTokens(pieces)), word, rest);
  }

  lemma OpenQuote(lead: string, pieces: seq<Piece>, gaps: seq<string>, word: seq<Segment>, items: seq<Item>, quote: char, rest: string)
    requires Blank(lead) && Spaced(pieces, gaps) && WordFits("", word) && IsQuote(quote) && Fit(items, Some(quote))
    ensures Scan(START, lead + (Render(pieces, gaps) + (WordWritten(word) + ([quote] + (ItemsWritten(items) + rest)))))
         == Scan(Lexer(AllTokens(pieces), WordText(word) + TextOf(items), Some(quote), false, false), rest)
  {
    var l := START.(tokens := AllTokens(pieces), current := WordText(word));
    OpenWord(lead, pieces, gaps, word, [quote] + (ItemsWritten(items) + rest));
    ScanOne(l, quote, ItemsWritten(items) + rest);
    ScanItems(l.(quote := Some(quote)), items, Some(quote), rest);
  }

  // ----- quoting every token -----

  /** The characters of a token, with a backslash before every backslash and every double quote. */
  function Escaped(t: string): seq<Item> {
    if t == "" then [] else [if t[0] == '\\' || t[0] == '"' then Esc(t[0]) else Raw(t[0])] + Escaped(t[1..])
  }

  function InQuotes(t: string): Piece { Word([Quoted(Escaped(t), '"')]) }

  lemma {:induction false} EscapedFits(t: string)
    ensures Fit(Escaped(t), Some('"')) && TextOf(Escaped(t)) == t
  {
    if t != "" {
      EscapedFits(t[1..]);
      assert t == [t[0]] + t[1..];
    }
  }

  /** Any token can be written. */
  lemma InQuotesStandsFor(t: string)
    ensures Valid(InQuotes(t)) && TokensOf(InQuotes(t)) == if t == "" then [] else [t]
  {
    EscapedFits(t);
    var p := Quoted(Escaped(t), '"');
    assert [p][1..] == [] && TextOf(p.items) == t;
    assert WordText([p]) == t + "" == t;
  }

  /** Each token in double quotes, joined with the separators. */
  function Joined(tokens: seq<string>, separators: seq<string>): string
    requires |tokens| == |separators| + 1
  {
    var first := Written(InQuotes(tokens[0]));
    if separators == [] then first else first + (separators[0] + Joined(tokens[1..], separators[1..]))
  }

  function AllInQuotes(tokens: seq<string>): seq<Piece> { seq(|tokens|, i requires 0 <= i < |tokens| => InQuotes(tokens[i])) }

  lemma AllInQuotesFirst(tokens: seq<string>)
    requires tokens != []
    ensures AllInQuotes(tokens)[0] == InQuotes(tokens[0]) && AllInQuotes(tokens)[1..] == AllInQuotes(tokens[1..])
  {
  }

  lemma {:induction false} JoinedIsRendered(tokens: seq<string>, separators: seq<string>)
    requires |tokens| == |separators| + 1
    ensures var n := |separators|;
            Joined(tokens, separators) == Render(AllInQuotes(tokens[..n]), separators) + Written(InQuotes(tokens[n]))
    decreases separators
  {
    var n := |separators|;
    var last := Written(InQuotes(tokens[n]));
    if n == 0 {
      assert Render(AllInQuotes(tokens[..0]), separators) + last == last;
    } else {
      JoinedIsRendered(tokens[1..], separators[1..]);
      AllInQuotesFirst(tokens[..n]);
      RenderFirst(AllInQuotes(tokens[..n]), separators, last);
      assert tokens[1..][..n - 1] == tokens[..n][1..] && tokens[1..][n - 1] == tokens[n];
    }
  }

  lemma QuotesAreSpaced(tokens: seq<string>, separators: seq<string>)
    requires |tokens| == |separators| && forall i :: 0 <= i < |separators| ==> separators[i] != "" && Blank(separators[i])
    ensures Spaced(AllInQuotes(tokens), separators)
  {
    forall i | 0 <= i < |tokens| ensures Valid(AllInQuotes(tokens)[i]) {
      InQuotesStandsFor(tokens[i]);
    }
  }

  lemma {:induction false} QuotedTokens(tokens: seq<string>)
    requires "" !in tokens
    ensures AllTokens(AllInQuotes(tokens)) == tokens
  {
    if tokens != [] {
      AllInQuotesFirst(tokens);
      InQuotesStandsFor(tokens[0]);
      QuotedTokens(tokens[1..]);
      assert tokens == [tokens[0]] + tokens[1..];
    }
  }

  lemma QuotedTokensAndLast(tokens: seq<string>)
    requires tokens != [] && "" !in tokens
    ensures var n := |tokens| - 1; AllTokens(AllInQuotes(tokens[..n])) + TokensOf(InQuotes(tokens[n])) == tokens
  {
    var n := |tokens| - 1;
    QuotedTokens(tokens[..n]);
    InQuotesStandsFor(tokens[n]);
    assert tokens == tokens[..n] + [tokens[n]];
  }

  lemma TokenizeRendered(text: string, pieces: seq<Piece>, gaps: seq<string>, last: Piece)
    requires Spaced(pieces, gaps) && Valid(last) && !last.Comment? && text == Render(pieces, gaps) + Written(last)
    ensures Tokens(text) == Ok(AllTokens(pieces) + TokensOf(last))
  {
    TokenizeWritten("", pieces, gaps, last);
    assert "" + text == text;
  }

  /** Quoting non-empty tokens, joining them with any white space and tokenizing returns them. */
  lemma TokenizeQuoted(tokens: seq<string>, separators: seq<string>)
    requires |tokens| == |separators| + 1 && "" !in tokens
    requires forall i :: 0 <= i < |separators| ==> separators[i] != "" && Blank(separators[i])
    ensures Tokens(Joined(tokens, separators)) == Ok(tokens)
  {
    var n := |separators|;
    JoinedIsRendered(tokens, separators);
    QuotesAreSpaced(tokens[..n], separators);
    InQuotesStandsFor(tokens[n]);
    TokenizeRendered(Joined(tokens, separators), AllInQuotes(tokens[..n]), separators, InQuotes(tokens[n]));
    QuotedTokensAndLast(tokens);
  }

  /** The tokenizer never returns an empty token. */
  lemma {:induction false} NoEmptyTokens(l: Lexer, s: string)
    requires "" !in l.tokens
    ensures "" !in Scan(l, s).tokens
    ensures Finish(Scan(l, s)).Ok? ==> "" !in Finish(Scan(l, s)).value
    decreases s
  {
    if s != "" {
      NoEmptyTokens(Step(l, s[0], First(s[1..])), s[1..]);
    }
  }
}
