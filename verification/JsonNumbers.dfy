/** The number scanner of src/json.rs takes the longest number that starts a text (section 6 of RFC 8259). */
module JsonNumbers {
  import opened Wrappers
  import opened JsonLexer
  import opened JsonDocuments
  import opened JsonScanning

  // ----- no number is longer -----

  lemma {:induction false} DigitsAtLeast(d: string, rest: string)
    requires AllDigits(d)
    ensures DigitsLength(d + rest) >= |d|
    ensures DigitsLength(d + rest) > |d| ==> rest != [] && IsDigit(rest[0])
  {
    if d == [] {
      assert d + rest == rest;
    } else {
      assert (d + rest)[1..] == d[1..] + rest;
      DigitsAtLeast(d[1..], rest);
    }
  }

  lemma IntegerAtLeast(n: Spelling, tail: string)
    requires ValidSpelling(n)
    ensures var i := IntegerLength(SignText(n) + n.whole + tail);
            i >= |SignText(n) + n.whole| && (i > |SignText(n) + n.whole| ==> tail != [] && IsDigit(tail[0]))
  {
    var s := SignText(n) + n.whole + tail;
    assert s[|SignText(n)|..] == n.whole + tail && s[|SignText(n)|] == n.whole[0];
    DigitsAtLeast(n.whole, tail);
  }

  lemma FractionAtLeast(n: Spelling, tail: string)
    requires ValidSpelling(n)
    ensures var f := FractionLength(FractionText(n) + tail);
            f >= |FractionText(n)| && (f > |FractionText(n)| ==> tail != [] && (IsDigit(tail[0]) || tail[0] == '.'))
  {
    var s := FractionText(n) + tail;
    if n.fraction == [] {
      assert s == tail;
    } else {
      assert s[1..] == n.fraction + tail;
      DigitsAtLeast(n.fraction, tail);
    }
  }

  lemma ExponentAtLeast(n: Spelling, tail: string)
    requires ValidSpelling(n)
    ensures ExponentLength(ExponentText(n) + tail) >= |ExponentText(n)|
  {
    if n.exponent.Some? {
      var e, s := n.exponent.value, ExponentText(n) + tail;
      assert s[1 + |e.sign|..] == e.digits + tail;
      DigitsAtLeast(e.digits, tail);
      assert |s| > 1 && (e.sign == "" ==> s[1] == e.digits[0]);
    }
  }

  lemma FractionAndExponent(n: Spelling, rest: string)
    requires ValidSpelling(n)
    ensures var t := FractionText(n) + (ExponentText(n) + rest);
            FractionLength(t) + ExponentLength(t[FractionLength(t)..]) >= |FractionText(n)| + |ExponentText(n)|
  {
    var b, c := FractionText(n), ExponentText(n);
    var t := b + (c + rest);
    FractionAtLeast(n, c + rest);
    if FractionLength(t) == |b| {
      assert t[|b|..] == c + rest;
      ExponentAtLeast(n, rest);
    } else {
      assert c == [];
    }
  }

  lemma AtLeastParts(n: Spelling, s: string, a: string, t: string, more: nat)
    requires ValidSpelling(n) && a == SignText(n) + n.whole && s == a + t && s != []
    requires FractionLength(t) + ExponentLength(t[FractionLength(t)..]) >= more
    requires t != [] && IsDigit(t[0]) ==> more == 0
    ensures NumberLength(s) >= |a| + more
  {
    IntegerAtLeast(n, t);
    var i := IntegerLength(s);
    if i == |a| {
      assert s[i..] == t;
      var f := FractionLength(t);
      assert s[i + f..] == t[f..];
      NumberFromParts(s, i, f, ExponentLength(t[f..]));
    }
  }

  /** No number that starts the text is longer than what the scanner takes. */
  lemma NoneIsLonger(n: Spelling, rest: string)
    requires ValidSpelling(n)
    ensures Spell(n) + rest != [] && NumberLength(Spell(n) + rest) >= |Spell(n)|
  {
    var a, b, c := SignText(n) + n.whole, FractionText(n), ExponentText(n);
    ThreeParts(a, b, c, rest);
    FractionAndExponent(n, rest);
    AtLeastParts(n, Spell(n) + rest, a, b + (c + rest), |b| + |c|);
  }

  // ----- and what it takes is a number -----

  lemma {:induction false} DigitsTaken(s: string)
    ensures AllDigits(s[..DigitsLength(s)])
  {
    if s != [] && IsDigit(s[0]) {
      DigitsTaken(s[1..]);
      assert s[..DigitsLength(s)] == [s[0]] + s[1..][..DigitsLength(s[1..])];
    }
  }

  lemma WholeTaken(s: string, sign: nat)
    requires s != [] && sign == (if s[0] == '-' then 1 else 0) && sign < |s| && IsDigit(s[sign])
    ensures var i := IntegerLength(s); sign < i && AllDigits(s[sign..i]) && (s[sign] == '0' ==> i == sign + 1)
  {
    DigitsTaken(s[sign..]);
    assert s[sign..][..DigitsLength(s[sign..])] == s[sign..sign + DigitsLength(s[sign..])];
  }

  lemma FractionTaken(s: string) returns (fraction: string)
    ensures AllDigits(fraction) && s[..FractionLength(s)] == if fraction == [] then "" else "." + fraction
  {
    if FractionLength(s) == 0 {
      fraction := [];
    } else {
      DigitsTaken(s[1..]);
      fraction := s[1..][..DigitsLength(s[1..])];
      assert s[..FractionLength(s)] == [s[0]] + fraction;
    }
  }

  ghost predicate ValidExponent(e: Exponent) {
    && (e.marker == 'e' || e.marker == 'E') && (e.sign == "" || e.sign == "+" || e.sign == "-")
    && e.digits != [] && AllDigits(e.digits)
  }

  lemma ExponentTaken(s: string) returns (exponent: Option<Exponent>)
    ensures exponent.Some? ==> ValidExponent(exponent.value)
    ensures s[..ExponentLength(s)] == match exponent case None => "" case Some(e) => [e.marker] + e.sign + e.digits
  {
    if ExponentLength(s) == 0 {
      exponent := None;
    } else {
      var at := if |s| > 1 && (s[1] == '+' || s[1] == '-') then 2 else 1;
      DigitsTaken(s[at..]);
      var digits := s[at..][..DigitsLength(s[at..])];
      exponent := Some(Exponent(s[0], s[1..at], digits));
      assert s[..ExponentLength(s)] == [s[0]] + s[1..at] + digits;
    }
  }

  lemma Assembled(n: Spelling, s: string, i: nat, f: nat, e: nat)
    requires i + f + e <= |s| && SignText(n) + n.whole == s[..i]
    requires FractionText(n) == s[i..][..f] && ExponentText(n) == s[i + f..][..e]
    ensures Spell(n) == s[..i + f + e]
  {
    assert s[..i + f + e] == s[..i] + s[i..][..f] + s[i + f..][..e];
  }

  lemma SignedWhole(s: string, sign: nat, i: nat)
    requires sign == (if s != [] && s[0] == '-' then 1 else 0) && sign <= i <= |s|
    ensures (if sign == 1 then "-" else "") + s[sign..i] == s[..i]
  {
  }

  /** What the scanner takes is a number, when a digit stands where one must. */
  lemma TakesANumber(s: string, sign: nat) returns (n: Spelling)
    requires s != [] && sign == (if s[0] == '-' then 1 else 0) && sign < |s| && IsDigit(s[sign])
    ensures ValidSpelling(n) && Spell(n) == s[..NumberLength(s)]
  {
    WholeTaken(s, sign);
    var i := IntegerLength(s);
    SignedWhole(s, sign, i);
    var f := FractionLength(s[i..]);
    var e := ExponentLength(s[i + f..]);
    var fraction := FractionTaken(s[i..]);
    var exponent := ExponentTaken(s[i + f..]);
    n := Spelling(sign == 1, s[sign..i], fraction, exponent);
    NumberFromParts(s, i, f, e);
    Assembled(n, s, i, f, e);
  }

  /** `n` is a number that starts the text. */
  ghost predicate Starts(n: Spelling, s: string) { ValidSpelling(n) && Spell(n) <= s }

  /**
   When some number starts the text, the scanner takes the longest one that
   does; there is one exactly when a digit starts the text or follows a minus.
   */
  lemma TakesTheLongest(s: string)
    requires s != []
    ensures (exists n :: Starts(n, s)) <==> IsDigit(s[0]) || (|s| > 1 && s[0] == '-' && IsDigit(s[1]))
    ensures (exists n :: Starts(n, s)) ==> exists n :: Starts(n, s) && Spell(n) == s[..NumberLength(s)]
    ensures forall n :: Starts(n, s) ==> |Spell(n)| <= NumberLength(s)
  {
    var sign := if s[0] == '-' then 1 else 0;
    forall n | Starts(n, s) ensures |Spell(n)| <= NumberLength(s) && sign < |s| && IsDigit(s[sign]) {
      var t := Spell(n);
      assert s == t + s[|t|..];
      NoneIsLonger(n, s[|t|..]);
      assert t[|SignText(n)|] == n.whole[0] && t[0] == s[0] && t[|SignText(n)|] == s[|SignText(n)|];
    }
    if sign < |s| && IsDigit(s[sign]) {
      var n := TakesANumber(s, sign);
      assert Starts(n, s);
    }
  }
}
