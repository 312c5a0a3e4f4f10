/** The text of a JSON Pointer (sections 3 and 4 of RFC 6901) and its reference tokens, src/json.rs. */
module JsonPointerText {
  import opened Wrappers
  import JsonLexer

  const MAX_INPUT_BYTES := 16 * 1024 * 1024

  /** The length of a text in UTF-8 bytes. */
  function Utf8Length(s: string): nat {
    if s == [] then 0
    else
      var code := s[0] as int;
      (if code < 0x80 then 1 else if code < 0x800 then 2 else if code < 0x10000 then 3 else 4) + Utf8Length(s[1..])
  }

  /** A code point in UTF-8 (section 3 of RFC 3629): the leading byte says how many bytes follow with six bits each. */
  function Utf8(c: char): seq<nat> {
    var n := c as int;
    if n < 0x80 then [n]
    else if n < 0x800 then [0xC0 + n / 0x40, 0x80 + n % 0x40]
    else if n < 0x10000 then [0xE0 + n / 0x1000, 0x80 + n / 0x40 % 0x40, 0x80 + n % 0x40]
    else [0xF0 + n / 0x40000, 0x80 + n / 0x1000 % 0x40, 0x80 + n / 0x40 % 0x40, 0x80 + n % 0x40]
  }

  function Utf8Text(s: string): seq<nat> { if s == [] then [] else Utf8(s[0]) + Utf8Text(s[1..]) }

  lemma {:induction false} Utf8LengthIs(s: string)
    ensures Utf8Length(s) == |Utf8Text(s)|
  {
    if s != [] {
      Utf8LengthIs(s[1..]);
    }
  }

  /** The pieces of `s` between slashes; one piece when there is none. */
  function Split(s: string): (pieces: seq<string>)
    ensures pieces != []
  {
    if s == [] then [""]
    else
      var rest := Split(s[1..]);
      if s[0] == '/' then [""] + rest else [[s[0]] + rest[0]] + rest[1..]
  }

  function Unescape(raw: string): Result<string> {
    if raw == [] then Ok("")
    else if raw[0] != '~' then
      var rest :- Unescape(raw[1..]);
      Ok([raw[0]] + rest)
    else if |raw| > 1 && (raw[1] == '0' || raw[1] == '1') then
      var rest :- Unescape(raw[2..]);
      Ok([if raw[1] == '0' then '~' else '/'] + rest)
    else Err
  }

  function UnescapeAll(pieces: seq<string>): Result<seq<string>> {
    if pieces == [] then Ok([])
    else
      var token :- Unescape(pieces[0]);
      var rest :- UnescapeAll(pieces[1..]);
      Ok([token] + rest)
  }

  function Decode(text: string): Result<seq<string>> {
    if Utf8Length(text) > MAX_INPUT_BYTES then Err
    else if text == "" then Ok([])
    else if text[0] != '/' then Err
    else if |Split(text[1..])| > JsonLexer.MAX_TOKENS then Err
    else UnescapeAll(Split(text[1..]))
  }

  function AppendAll<T>(done: seq<T>, rest: Result<seq<T>>): Result<seq<T>> {
    match rest case Ok(more) => Ok(done + more) case Err => Err
  }

  lemma AppendNothing<T>(s: seq<T>, rest: Result<seq<T>>)
    ensures AppendAll([], rest) == rest && AppendAll(s, Ok([])) == Ok(s)
  {
    if rest.Ok? {
      assert [] + rest.value == rest.value;
    }
    assert s + [] == s;
  }

  lemma AppendTwice<T>(a: seq<T>, b: seq<T>, rest: Result<seq<T>>)
    ensures AppendAll(a, AppendAll(b, rest)) == AppendAll(a + b, rest)
  {
    if rest.Ok? {
      assert a + (b + rest.value) == (a + b) + rest.value;
    }
  }

  /** The decoder's inner loop. */
  method UnescapeToken(raw: string) returns (r: Result<string>)
    ensures r == Unescape(raw)
  {
    var token, i := "", 0;
    assert raw[0..] == raw;
    AppendNothing(token, Unescape(raw));
    while i < |raw|
      invariant i <= |raw|
      invariant Unescape(raw) == AppendAll(token, Unescape(raw[i..]))
    {
      assert raw[i..][1..] == raw[i + 1..];
      if raw[i] != '~' {
        AppendTwice(token, [raw[i]], Unescape(raw[i + 1..]));
        token, i := token + [raw[i]], i + 1;
      } else if i + 1 < |raw| && (raw[i + 1] == '0' || raw[i + 1] == '1') {
        var plain := if raw[i + 1] == '0' then '~' else '/';
        assert raw[i..][2..] == raw[i + 2..];
        AppendTwice(token, [plain], Unescape(raw[i + 2..]));
        token, i := token + [plain], i + 2;
      } else {
        return Err;
      }
    }
    AppendNothing(token, Err);
    r := Ok(token);
  }

  /** The decoder's outer loop. */
  method DecodePointerText(text: string) returns (r: Result<seq<string>>)
    ensures r == Decode(text)
  {
    if Utf8Length(text) > MAX_INPUT_BYTES {
      return Err;
    }
    if text == "" {
      return Ok([]);
    }
    if text[0] != '/' {
      return Err;
    }
    var pieces, tokens, n := Split(text[1..]), [], 0;
    assert pieces[0..] == pieces;
    AppendNothing(tokens, UnescapeAll(pieces));
    while n < |pieces|
      invariant n <= |pieces| && |tokens| == n <= JsonLexer.MAX_TOKENS
      invariant UnescapeAll(pieces) == AppendAll(tokens, UnescapeAll(pieces[n..]))
    {
      if |tokens| >= JsonLexer.MAX_TOKENS {
        return Err;
      }
      var token := UnescapeToken(pieces[n]);
      if token.Err? {
        return Err;
      }
      assert pieces[n..][1..] == pieces[n + 1..];
      AppendTwice(tokens, [token.value], UnescapeAll(pieces[n + 1..]));
      tokens, n := tokens + [token.value], n + 1;
    }
    AppendNothing(tokens, Err);
    r := Ok(tokens);
  }

  // ----- the inverse -----

  function Escape(token: string): string {
    if token == [] then ""
    else (if token[0] == '~' then "~0" else if token[0] == '/' then "~1" else [token[0]]) + Escape(token[1..])
  }

  /** The pieces with a slash between each two. */
  function Join(pieces: seq<string>): string {
    if pieces == [] then "" else if |pieces| == 1 then pieces[0] else pieces[0] + "/" + Join(pieces[1..])
  }

  function Encode(tokens: seq<string>): string {
    if tokens == [] then "" else "/" + Join(EscapeAll(tokens))
  }

  function EscapeAll(tokens: seq<string>): seq<string> {
    if tokens == [] then [] else [Escape(tokens[0])] + EscapeAll(tokens[1..])
  }

  lemma {:induction false} UnescapeEscape(token: string)
    ensures Unescape(Escape(token)) == Ok(token) && '/' !in Escape(token)
  {
    if token != [] {
      UnescapeEscape(token[1..]);
      var head := Escape(token)[..|Escape(token)| - |Escape(token[1..])|];
      assert Escape(token) == head + Escape(token[1..]);
      assert |head| == 2 ==> Escape(token)[2..] == Escape(token[1..]);
      assert |head| == 1 ==> Escape(token)[1..] == Escape(token[1..]);
      assert token == [token[0]] + token[1..];
    }
  }

  lemma {:induction false} EscapeUnescape(raw: string)
    requires Unescape(raw).Ok? && '/' !in raw
    ensures Escape(Unescape(raw).value) == raw
  {
    if raw != [] {
      if raw[0] != '~' {
        EscapeUnescape(raw[1..]);
      } else {
        EscapeUnescape(raw[2..]);
        assert raw == raw[..2] + raw[2..];
      }
    }
  }

  lemma {:induction false} SplitWhole(piece: string)
    requires '/' !in piece
    ensures Split(piece) == [piece]
  {
    if piece != [] {
      SplitWhole(piece[1..]);
      assert [piece[0]] + piece[1..] == piece;
    }
  }

  /** Splitting takes off a piece that holds no slash. */
  lemma {:induction false} SplitPiece(piece: string, rest: string)
    requires '/' !in piece
    ensures Split(piece + "/" + rest) == [piece] + Split(rest)
  {
    var s := piece + "/" + rest;
    if piece == [] {
      assert s[1..] == rest;
    } else {
      SplitPiece(piece[1..], rest);
      assert s[1..] == piece[1..] + "/" + rest;
      assert [piece[0]] + piece[1..] == piece;
    }
  }

  ghost predicate NoSlash(pieces: seq<string>) {
    forall i :: 0 <= i < |pieces| ==> '/' !in pieces[i]
  }

  lemma {:induction false} SplitJoin(pieces: seq<string>)
    requires pieces != [] && NoSlash(pieces)
    ensures Split(Join(pieces)) == pieces
  {
    if |pieces| == 1 {
      SplitWhole(pieces[0]);
    } else {
      SplitJoin(pieces[1..]);
      SplitPiece(pieces[0], Join(pieces[1..]));
      assert pieces == [pieces[0]] + pieces[1..];
    }
  }

  lemma Associates(a: string, b: string, c: string)
    ensures (a + b) + c == a + (b + c)
  {
  }

  lemma JoinCons(pieces: seq<string>, head: string, rest: seq<string>)
    requires pieces != [] && pieces[0] == head && pieces[1..] == rest
    ensures Join(pieces) == if rest == [] then head else head + ("/" + Join(rest))
  {
    if rest != [] {
      Associates(head, "/", Join(rest));
    }
  }

  lemma JoinHead(c: char, pieces: seq<string>)
    requires pieces != []
    ensures Join([[c] + pieces[0]] + pieces[1..]) == [c] + Join(pieces)
  {
    var more, rest := [[c] + pieces[0]] + pieces[1..], pieces[1..];
    JoinCons(pieces, pieces[0], rest);
    assert more[1..] == rest;
    JoinCons(more, [c] + pieces[0], rest);
    if rest != [] {
      Associates([c], pieces[0], "/" + Join(rest));
    }
  }

  lemma {:induction false} JoinSplit(s: string)
    ensures Join(Split(s)) == s
  {
    if s != [] {
      JoinSplit(s[1..]);
      var rest := Split(s[1..]);
      assert s == [s[0]] + s[1..];
      if s[0] == '/' {
        assert ([""] + rest)[1..] == rest;
      } else {
        JoinHead(s[0], rest);
      }
    }
  }

  lemma {:induction false} SplitNoSlash(s: string)
    ensures NoSlash(Split(s))
  {
    if s != [] {
      SplitNoSlash(s[1..]);
    }
  }

  lemma {:induction false} UnescapeEscapeAll(tokens: seq<string>)
    ensures UnescapeAll(EscapeAll(tokens)) == Ok(tokens)
    ensures |EscapeAll(tokens)| == |tokens| && NoSlash(EscapeAll(tokens))
  {
    if tokens != [] {
      UnescapeEscape(tokens[0]);
      UnescapeEscapeAll(tokens[1..]);
      assert tokens == [tokens[0]] + tokens[1..];
    }
  }

  lemma {:induction false} EscapeUnescapeAll(pieces: seq<string>)
    requires UnescapeAll(pieces).Ok? && NoSlash(pieces)
    ensures EscapeAll(UnescapeAll(pieces).value) == pieces
  {
    if pieces != [] {
      EscapeUnescape(pieces[0]);
      EscapeUnescapeAll(pieces[1..]);
      assert pieces == [pieces[0]] + pieces[1..];
    }
  }

  /** Every token list within the limits has a text, and that text decodes to it. */
  lemma DecodeEncode(tokens: seq<string>)
    ensures Decode(Encode(tokens)) ==
            if Utf8Length(Encode(tokens)) <= MAX_INPUT_BYTES && |tokens| <= JsonLexer.MAX_TOKENS then Ok(tokens) else Err
  {
    if tokens != [] {
      UnescapeEscapeAll(tokens);
      SplitJoin(EscapeAll(tokens));
      assert Encode(tokens)[1..] == Join(EscapeAll(tokens));
    }
  }

  /** Every accepted text is the text of the tokens it decodes to, so no two texts decode alike. */
  lemma EncodeDecode(text: string)
    requires Decode(text).Ok?
    ensures Encode(Decode(text).value) == text
  {
    if text != "" {
      var pieces := Split(text[1..]);
      JoinSplit(text[1..]);
      SplitNoSlash(text[1..]);
      EscapeUnescapeAll(pieces);
      assert text == "/" + text[1..];
    }
  }
}
