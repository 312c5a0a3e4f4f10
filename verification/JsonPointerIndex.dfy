/** Which tokens name which array positions (src/json.rs). */
module JsonPointerIndex {
  import Arithmetic
  import opened Wrappers
  import opened JsonPointer

  function Digit(d: nat): char
    requires d < 10
  {
    '0' + d as char
  }

  /** The decimal numeral of a number, without leading zeros. */
  function Numeral(n: nat): string {
    if n < 10 then [Digit(n)] else Numeral(n / 10) + [Digit(n % 10)]
  }

  lemma {:induction false} NumeralReads(n: nat)
    ensures IsDigits(Numeral(n)) && Decimal(Numeral(n)) == n && Canonical(Numeral(n))
    ensures n > 0 ==> Numeral(n)[0] != '0'
  {
    if n >= 10 {
      NumeralReads(n / 10);
      var s := Numeral(n);
      assert s[..|s| - 1] == Numeral(n / 10);
    } else {
      assert Numeral(n)[..0] == [];
    }
  }

  /** A canonical digit string is the numeral of its value, so no position has two canonical tokens. */
  lemma {:induction false} CanonicalIsNumeral(s: string)
    requires IsDigits(s) && Canonical(s)
    ensures s == Numeral(Decimal(s))
    ensures s[0] != '0' ==> Decimal(s) > 0
    decreases |s|
  {
    var front, last := s[..|s| - 1], s[|s| - 1];
    assert Digit(last as int - '0' as int) == last;
    if |s| == 1 {
      assert front == [];
    } else {
      CanonicalIsNumeral(front);
      assert s == front + [last];
    }
  }

  /** The tokens besides the numeral that the index parser takes for `i`: a plus sign and any digits worth `i`. */
  predicate PlusAlias(token: string, i: nat) {
    |token| > 1 && token[0] == '+' && IsDigits(token[1..]) && Decimal(token[1..]) == i
  }

  lemma PlainToken(token: string, i: nat)
    requires token == [] || token[0] != '+'
    ensures Canonical(token) && ParseUsize(token) == Some(i) <==> token == Numeral(i) && i < Arithmetic.TWO_64
  {
    NumeralReads(i);
    if Canonical(token) && IsDigits(token) {
      CanonicalIsNumeral(token);
    }
  }

  /**
   A token names position `i` exactly when it is the numeral of `i` or a plus
   sign followed by digits worth `i`; the check for canonical indices does not
   see past the sign.
   */
  lemma IndexTokens(token: string, length: nat, i: nat)
    ensures PointerIndex(token, length, false) == Ok(i) <==>
            i < length && i < Arithmetic.TWO_64 && (token == Numeral(i) || PlusAlias(token, i))
  {
    NumeralReads(i);
    if token == [] || token[0] != '+' {
      PlainToken(token, i);
    }
  }

  /** The same for the position an addition inserts at, which may also be the length, named by `-` too. */
  lemma InsertTokens(token: string, length: nat, i: nat)
    ensures InsertIndex(token, length) == Ok(i) <==>
            || (token == "-" && i == length)
            || (i <= length && i < Arithmetic.TWO_64 && (token == Numeral(i) || PlusAlias(token, i)))
  {
    NumeralReads(i);
    if token == [] || token[0] != '+' {
      PlainToken(token, i);
    }
  }

  /** Two different tokens for one position, one of them with a leading zero. */
  lemma AliasExample()
    ensures PointerIndex("1", 2, false) == PointerIndex("+01", 2, false) == Ok(1) && PointerIndex("01", 2, false) == Err
  {
    assert "+01"[1..] == "01" && "01"[..1] == "0" && "0"[..0] == "" && "1"[..0] == "";
    assert Decimal("0") == 0 && Decimal("01") == 1 && Decimal("1") == 1;
  }
}
