/** Integer exponentiation by squaring with wrapping multiplication (src/math.rs). */
module IntPow {
  import opened Arithmetic

  predicate Fits(x: int) { -TWO_63 <= x < TWO_63 }

  /** The two's complement value of the low 64 bits. */
  function Wrap(x: int): (r: i64) {
    var low := x % TWO_64;
    if low < TWO_63 then low else low - TWO_64
  }

  function Negated(x: int): int { -x }

  function WrappingMul(a: i64, b: i64): i64 { Wrap(a * b) }

  function Pow(b: int, e: nat): int {
    if e == 0 then 1 else b * Pow(b, e - 1)
  }

  // ----- congruence modulo 2^64 -----

  ghost predicate Same(a: int, b: int) { exists k: int :: a == b + k * TWO_64 }

  lemma SameBy(a: int, b: int, k: int)
    requires a == b + k * TWO_64
    ensures Same(a, b)
  {
  }

  /** Wrapping picks the one 64-bit value congruent to its argument. */
  lemma WrapIs(x: int, r: i64)
    ensures Same(x, Wrap(x))
    ensures Same(x, r) ==> Wrap(x) == r
  {
    var k := x / TWO_64 + if x % TWO_64 < TWO_63 then 0 else 1;
    SameBy(x, Wrap(x), k);
  }

  lemma SameTrans(a: int, b: int, c: int)
    requires Same(a, b) && Same(c, b)
    ensures Same(a, c)
  {
    var j: int :| a == b + j * TWO_64;
    var k: int :| c == b + k * TWO_64;
    SameBy(a, c, j - k);
  }

  lemma SameMul(a: int, a': int, b: int, b': int)
    requires Same(a, a') && Same(b, b')
    ensures Same(a * b, a' * b')
  {
    var j: int :| a == a' + j * TWO_64;
    var k: int :| b == b' + k * TWO_64;
    calc {
      a * b;
      (a' + j * TWO_64) * b;
      a' * b + j * TWO_64 * b;
      a' * (b' + k * TWO_64) + j * TWO_64 * b;
      a' * b' + (a' * k + j * b) * TWO_64;
    }
    SameBy(a * b, a' * b', a' * k + j * b);
  }

  lemma SameRefl(a: int)
    ensures Same(a, a)
  {
    SameBy(a, a, 0);
  }

  lemma {:induction false} SamePow(a: int, a': int, e: nat)
    requires Same(a, a')
    ensures Same(Pow(a, e), Pow(a', e))
  {
    if e == 0 {
      SameRefl(1);
    } else {
      SamePow(a, a', e - 1);
      SameMul(a, a', Pow(a, e - 1), Pow(a', e - 1));
    }
  }

  // ----- squaring -----

  lemma {:induction false} PowSquare(b: int, h: nat)
    ensures Pow(b, 2 * h) == Pow(b * b, h)
  {
    if h > 0 {
      PowSquare(b, h - 1);
      assert Pow(b, 2 * h) == b * (b * Pow(b, 2 * h - 2));
      Associate(b, Pow(b, 2 * h - 2));
    }
  }

  lemma Associate(b: int, p: int)
    ensures b * (b * p) == (b * b) * p
  {
  }

  lemma PowOdd(b: int, h: nat)
    ensures Pow(b, 2 * h + 1) == b * Pow(b * b, h)
  {
    PowSquare(b, h);
  }

  lemma PowHalf(result: int, b: int, e: nat, odd: int)
    requires odd == if e % 2 == 1 then result * b else result
    ensures odd * Pow(b * b, e / 2) == result * Pow(b, e)
  {
    var h := e / 2;
    if e % 2 == 1 {
      assert e == 2 * h + 1;
      PowOdd(b, h);
      Reassociate(result, b, Pow(b * b, h));
    } else {
      assert e == 2 * h;
      PowSquare(b, h);
    }
  }

  lemma Reassociate(a: int, b: int, c: int)
    ensures (a * b) * c == a * (b * c)
  {
  }

  lemma WrapSame(x: int)
    ensures Same(Wrap(x), x)
  {
    WrapIs(x, 0);
    SameFlip(x, Wrap(x));
  }

  /** One turn of the squaring loop keeps the product congruent. */
  lemma Turn(result: int, b: int, e: nat, r: int)
    requires r == if e % 2 == 1 then Wrap(result * b) else result
    ensures Same(r * Pow(Wrap(b * b), e / 2), result * Pow(b, e))
  {
    var odd := if e % 2 == 1 then result * b else result;
    WrapSame(b * b);
    WrapSame(result * b);
    SameRefl(result);
    SamePow(Wrap(b * b), b * b, e / 2);
    SameMul(r, odd, Pow(Wrap(b * b), e / 2), Pow(b * b, e / 2));
    PowHalf(result, b, e, odd);
  }

  // ----- negative exponents -----

  /** Division that rounds toward zero. */
  function Truncated(a: int, b: int): int
    requires b != 0
  {
    if b > 0 then (if a >= 0 then a / b else -(-a / b))
    else (if a >= 0 then -(a / -b) else -a / -b)
  }

  function Abs(x: int): nat { if x < 0 then -x else x }

  lemma SignsMultiply(x: int, y: int)
    ensures (-x) * y == -(x * y) && x * (-y) == -(x * y) && (-x) * (-y) == x * y
  {
  }

  lemma AtLeastFour(x: int, y: int)
    requires x >= 2 && y >= 2
    ensures x * y >= 4
  {
    assert (x - 2) * y >= 0;
  }

  lemma ProductOfTwos(a: int, b: int)
    requires Abs(a) >= 2 && Abs(b) >= 2
    ensures Abs(a * b) >= 2
  {
    var x, y := Abs(a), Abs(b);
    AtLeastFour(x, y);
    SignsMultiply(x, y);
  }

  lemma {:induction false} PowGrows(b: int, e: nat)
    requires Abs(b) >= 2 && e > 0
    ensures Abs(Pow(b, e)) >= 2
  {
    if e > 1 {
      PowGrows(b, e - 1);
      ProductOfTwos(b, Pow(b, e - 1));
    } else {
      assert Pow(b, 1) == b * Pow(b, 0) == b;
    }
  }

  lemma {:induction false} PowOfUnit(b: int, e: nat)
    requires b == 1 || b == -1
    ensures Pow(b, e) == if b == 1 || e % 2 == 0 then 1 else -1
  {
    if e > 0 {
      PowOfUnit(b, e - 1);
    }
  }

  /** What a negative exponent means: the reciprocal of the power, rounded toward zero; zero for a zero base. */
  lemma Reciprocal(b: int, n: nat)
    requires n > 0
    ensures b == 1 || b == -1 ==> Pow(b, n) != 0 && Truncated(1, Pow(b, n)) == if b == 1 || n % 2 == 0 then 1 else -1
    ensures Abs(b) >= 2 ==> Pow(b, n) != 0 && Truncated(1, Pow(b, n)) == 0
  {
    if b == 1 || b == -1 {
      PowOfUnit(b, n);
    } else if Abs(b) >= 2 {
      PowGrows(b, n);
    }
  }

  /**
   The power modulo 2^64 as a signed number, which is the true power whenever
   that fits; for a negative exponent, the reciprocal rounded toward zero.
   */
  method Power(base: i64, exp: i64) returns (r: i64)
    ensures exp >= 0 ==> r == Wrap(Pow(base, exp))
    ensures exp >= 0 && Fits(Pow(base, exp)) ==> r == Pow(base, exp)
    ensures exp < 0 && base != 0 ==> Pow(base, Negated(exp)) != 0 && r == Truncated(1, Pow(base, Negated(exp)))
    ensures exp < 0 && base == 0 ==> r == 0
  {
    if exp < 0 {
      Reciprocal(base, Negated(exp));
      if base == 1 {
        return 1;
      }
      if base == -1 {
        var negated := Wrap(Negated(exp));
        return if negated % 2 == 0 then 1 else -1;
      }
      return 0;
    }
    var result: i64, b: i64, e: i64 := 1, base, exp;
    SameRefl(1 * Pow(base, exp));
    while e > 0
      invariant 0 <= e
      invariant Same(result * Pow(b, e), Pow(base, exp))
    {
      Turn(result, b, e, if e % 2 == 1 then Wrap(result * b) else result);
      ghost var before := result * Pow(b, e);
      if e % 2 == 1 {
        result := WrappingMul(result, b);
      }
      b := WrappingMul(b, b);
      e := e / 2;
      SameChain(result * Pow(b, e), before, Pow(base, exp));
    }
    assert result * Pow(b, 0) == result;
    SameFlip(result, Pow(base, exp));
    WrapIs(Pow(base, exp), result);
    r := result;
  }

  lemma SameFlip(a: int, b: int)
    requires Same(a, b)
    ensures Same(b, a)
  {
    SameRefl(b);
    SameTrans(b, b, a);
  }

  lemma SameChain(a: int, b: int, c: int)
    requires Same(a, b) && Same(b, c)
    ensures Same(a, c)
  {
    SameFlip(b, c);
    SameTrans(a, b, c);
  }
}
