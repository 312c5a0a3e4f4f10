/**
 The scanners of src/json.rs that run over a document's text before it is
 parsed: one collects the spellings of its numbers, one counts its tokens.
 A text is a sequence of characters; none outside ASCII has a role in either.
 */
module JsonLexer {
  const MAX_TOKENS := 1_000_000

  predicate IsDigit(c: char) { '0' <= c <= '9' }

  // ----- how much of a text each scanner takes -----

  function DigitsLength(s: string): (n: nat)
    ensures n <= |s|
  {
    if s != [] && IsDigit(s[0]) then 1 + DigitsLength(s[1..]) else 0
  }

  function IntegerLength(s: string): (n: nat)
    requires s != []
    ensures n <= |s| && (s[0] == '-' || IsDigit(s[0]) ==> n >= 1)
  {
    var sign := if s[0] == '-' then 1 else 0;
    if sign < |s| && s[sign] == '0' then sign + 1 else sign + DigitsLength(s[sign..])
  }

  /** Zero when there is no digit after the point. */
  function FractionLength(s: string): (n: nat)
    ensures n <= |s|
  {
    if s == [] || s[0] != '.' || DigitsLength(s[1..]) == 0 then 0 else 1 + DigitsLength(s[1..])
  }

  function ExponentLength(s: string): (n: nat)
    ensures n <= |s|
  {
    if s == [] || (s[0] != 'e' && s[0] != 'E') then 0
    else
      var digits := if |s| > 1 && (s[1] == '+' || s[1] == '-') then 2 else 1;
      if DigitsLength(s[digits..]) == 0 then 0 else digits + DigitsLength(s[digits..])
  }

  function NumberLength(s: string): (n: nat)
    requires s != []
    ensures n <= |s| && (s[0] == '-' || IsDigit(s[0]) ==> n >= 1)
  {
    var i := IntegerLength(s);
    var f := i + FractionLength(s[i..]);
    f + ExponentLength(s[f..])
  }

  /** From inside a string to past its closing quote; a final lone backslash reaches one past the end. */
  function BodyLength(s: string): (n: nat)
    ensures n <= |s| + 1 && (s != [] ==> n >= 1)
  {
    if s == [] then 0
    else if s[0] == '\\' then (if |s| == 1 then 2 else 2 + BodyLength(s[2..]))
    else if s[0] == '"' then 1
    else 1 + BodyLength(s[1..])
  }

  function Drop(s: string, n: nat): string { if n <= |s| then s[n..] else [] }

  /** The spellings of the numbers in a text, in order, outside its strings. */
  function Numbers(s: string): seq<string>
    decreases |s|
  {
    if s == [] then []
    else if s[0] == '"' then Numbers(Drop(s, 1 + BodyLength(s[1..])))
    else if s[0] == '-' || IsDigit(s[0]) then [s[..NumberLength(s)]] + Numbers(s[NumberLength(s)..])
    else Numbers(s[1..])
  }

  // ----- the loops -----

  method ScanAsciiDigits(bytes: string, start: nat) returns (index: nat)
    requires start <= |bytes|
    ensures index == start + DigitsLength(bytes[start..])
  {
    index := start;
    while index < |bytes| && IsDigit(bytes[index])
      invariant start <= index <= |bytes|
      invariant index + DigitsLength(bytes[index..]) == start + DigitsLength(bytes[start..])
    {
      assert bytes[index..][1..] == bytes[index + 1..];
      index := index + 1;
    }
  }

  method ScanJsonInteger(bytes: string, start: nat) returns (index: nat)
    requires start < |bytes|
    ensures index == start + IntegerLength(bytes[start..])
  {
    index := start;
    if bytes[index] == '-' {
      index := index + 1;
    }
    assert bytes[start..][index - start..] == bytes[index..];
    if index < |bytes| && bytes[index] == '0' {
      index := index + 1;
    } else {
      index := ScanAsciiDigits(bytes, index);
    }
  }

  method ScanJsonFraction(bytes: string, start: nat) returns (index: nat)
    requires start <= |bytes|
    ensures index == start + FractionLength(bytes[start..])
  {
    if start == |bytes| || bytes[start] != '.' {
      return start;
    }
    assert bytes[start..][1..] == bytes[start + 1..];
    index := ScanAsciiDigits(bytes, start + 1);
    if index == start + 1 {
      index := start;
    }
  }

  method ScanJsonExponent(bytes: string, start: nat) returns (index: nat)
    requires start <= |bytes|
    ensures index == start + ExponentLength(bytes[start..])
  {
    if start == |bytes| || (bytes[start] != 'e' && bytes[start] != 'E') {
      return start;
    }
    var digits := start + 1;
    if digits < |bytes| && (bytes[digits] == '+' || bytes[digits] == '-') {
      digits := digits + 1;
    }
    assert bytes[start..][digits - start..] == bytes[digits..];
    index := ScanAsciiDigits(bytes, digits);
    if index == digits {
      index := start;
    }
  }

  lemma DropTwice(s: string, a: nat, b: nat)
    requires a <= b <= |s|
    ensures s[a..][b - a..] == s[b..]
  {
  }

  method ScanJsonNumber(bytes: string, start: nat) returns (index: nat)
    requires start < |bytes|
    ensures index == start + NumberLength(bytes[start..])
  {
    var whole := ScanJsonInteger(bytes, start);
    var fraction := ScanJsonFraction(bytes, whole);
    index := ScanJsonExponent(bytes, fraction);
    DropTwice(bytes, start, whole);
    DropTwice(bytes, start, fraction);
  }

  method SkipJsonString(bytes: string, start: nat) returns (index: nat)
    requires start < |bytes|
    ensures index == start + 1 + BodyLength(bytes[start + 1..])
  {
    index := start + 1;
    while index < |bytes|
      invariant start < index
      invariant index <= |bytes| ==> index + BodyLength(bytes[index..]) == start + 1 + BodyLength(bytes[start + 1..])
      invariant index > |bytes| ==> index == start + 1 + BodyLength(bytes[start + 1..])
    {
      assert bytes[index..][1..] == bytes[index + 1..];
      if bytes[index] == '\\' {
        assert index + 1 < |bytes| ==> bytes[index..][2..] == bytes[index + 2..];
        index := index + 2;
      } else if bytes[index] == '"' {
        return index + 1;
      } else {
        index := index + 1;
      }
    }
  }

  method ScanJsonNumbers(input: string) returns (numbers: seq<string>)
    ensures numbers == Numbers(input)
  {
    numbers := [];
    var index := 0;
    assert Drop(input, 0) == input;
    while index < |input|
      invariant numbers + Numbers(Drop(input, index)) == Numbers(input)
    {
      ghost var before := Numbers(Drop(input, index));
      if input[index] == '"' {
        var next := SkipJsonString(input, index);
        PastString(input, index, next);
        index := next;
      } else if input[index] == '-' || IsDigit(input[index]) {
        var next := ScanJsonNumber(input, index);
        PastNumber(input, index, next);
        assert numbers + before == (numbers + [input[index..next]]) + Numbers(Drop(input, next));
        numbers := numbers + [input[index..next]];
        index := next;
      } else {
        assert Drop(input, index)[1..] == Drop(input, index + 1);
        index := index + 1;
      }
    }
    assert numbers + [] == numbers;
  }

  lemma PastString(s: string, i: nat, next: nat)
    requires i < |s| && s[i] == '"' && next == i + 1 + BodyLength(s[i + 1..])
    ensures Numbers(Drop(s, i)) == Numbers(Drop(s, next))
  {
    assert Drop(s, i)[1..] == s[i + 1..];
    assert Drop(Drop(s, i), next - i) == Drop(s, next);
  }

  lemma PastNumber(s: string, i: nat, next: nat)
    requires i < |s| && (s[i] == '-' || IsDigit(s[i])) && next == i + NumberLength(s[i..])
    ensures Numbers(Drop(s, i)) == [s[i..next]] + Numbers(Drop(s, next))
  {
    var t, n := s[i..], NumberLength(s[i..]);
    assert t[..n] == s[i..next] && t[n..] == s[next..];
    assert Numbers(t) == [t[..n]] + Numbers(t[n..]);
  }

  // ----- counting tokens -----

  predicate IsAsciiWhitespace(c: char) {
    c == ' ' || c == '\t' || c == '\n' || c == '\r' || c == (12 as char)
  }

  predicate InNumber(c: char) {
    IsDigit(c) || c == 'e' || c == 'E' || c == '+' || c == '-' || c == '.'
  }

  function RunLength(s: string): (n: nat)
    ensures n <= |s|
  {
    if s != [] && InNumber(s[0]) then 1 + RunLength(s[1..]) else 0
  }

  /** From inside a string to past its closing quote, never past the end. */
  function QuotedLength(s: string, escaped: bool): (n: nat)
    ensures n <= |s|
  {
    if s == [] then 0
    else if escaped then 1 + QuotedLength(s[1..], false)
    else if s[0] == '\\' then 1 + QuotedLength(s[1..], true)
    else if s[0] == '"' then 1
    else 1 + QuotedLength(s[1..], false)
  }

  predicate StartsWith(s: string, word: string) { |word| <= |s| && s[..|word|] == word }

  function TokenLength(s: string): (n: nat)
    requires s != []
    ensures 1 <= n <= |s|
  {
    if s[0] == '"' then 1 + QuotedLength(s[1..], false)
    else if s[0] == '-' || IsDigit(s[0]) then 1 + RunLength(s[1..])
    else if StartsWith(s, "true") then 4
    else if StartsWith(s, "false") then 5
    else if StartsWith(s, "null") then 4
    else 1
  }

  function CountTokens(s: string): nat
    decreases |s|
  {
    if s == [] then 0
    else if IsAsciiWhitespace(s[0]) then CountTokens(s[1..])
    else 1 + CountTokens(s[TokenLength(s)..])
  }

  method SkipQuoted(bytes: string, start: nat) returns (index: nat)
    requires start <= |bytes|
    ensures index == start + QuotedLength(bytes[start..], false)
  {
    index := start;
    var escaped := false;
    while index < |bytes|
      invariant start <= index <= |bytes|
      invariant index + QuotedLength(bytes[index..], escaped) == start + QuotedLength(bytes[start..], false)
    {
      assert bytes[index..][1..] == bytes[index + 1..];
      var byte := bytes[index];
      index := index + 1;
      if escaped {
        escaped := false;
      } else if byte == '\\' {
        escaped := true;
      } else if byte == '"' {
        return;
      }
    }
  }

  method SkipRun(bytes: string, start: nat) returns (index: nat)
    requires start <= |bytes|
    ensures index == start + RunLength(bytes[start..])
  {
    index := start;
    while index < |bytes| && InNumber(bytes[index])
      invariant start <= index <= |bytes|
      invariant index + RunLength(bytes[index..]) == start + RunLength(bytes[start..])
    {
      assert bytes[index..][1..] == bytes[index + 1..];
      index := index + 1;
    }
  }

  method SkipToken(bytes: string, start: nat) returns (index: nat)
    requires start < |bytes|
    ensures index == start + TokenLength(bytes[start..])
  {
    var rest := bytes[start..];
    assert rest[1..] == bytes[start + 1..];
    if bytes[start] == '"' {
      index := SkipQuoted(bytes, start + 1);
    } else if bytes[start] == '-' || IsDigit(bytes[start]) {
      index := SkipRun(bytes, start + 1);
    } else if StartsWith(rest, "true") || StartsWith(rest, "null") {
      index := start + 4;
    } else if StartsWith(rest, "false") {
      index := start + 5;
    } else {
      index := start + 1;
    }
  }

  /** Fails exactly when the text has more tokens than the limit. */
  method EnforceTokenLimit(input: string) returns (ok: bool)
    ensures ok == (CountTokens(input) <= MAX_TOKENS)
  {
    var index, count := 0, 0;
    assert input[0..] == input;
    while index < |input|
      invariant index <= |input| && count <= MAX_TOKENS
      invariant count + CountTokens(input[index..]) == CountTokens(input)
      decreases |input| - index
    {
      if IsAsciiWhitespace(input[index]) {
        assert input[index..][1..] == input[index + 1..];
        index := index + 1;
      } else {
        if count >= MAX_TOKENS {
          return false;
        }
        count := count + 1;
        var next := SkipToken(input, index);
        assert input[index..][next - index..] == input[next..];
        index := next;
      }
    }
    return true;
  }
}
