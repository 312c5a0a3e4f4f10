/**
 The SplitMix64 generator of src/random.rs: its state runs through every 64-bit
 word, and so do its outputs.
 */
module SplitMix {
  import opened Arithmetic

  /** The increment of SplitMix64, and its inverse modulo 2^64. */
  const GAMMA := 0x9e37_79b9_7f4a_7c15
  const GAMMA_INVERSE := 0xf1de_83e1_9937_733d

  function Xor64(a: u64, b: u64): u64 {
    Pow2Of64();
    XorBelow(a, b, 64);
    Xor(a, b)
  }

  /** The output for a state: two rounds of shift, exclusive or and wrapping multiplication, and a last shift. */
  function Output(state: u64): u64 {
    var a := Xor(state, state / 0x4000_0000) * 0xbf58_476d_1ce4_e5b9 % TWO_64;
    var b := Xor(a, a / 0x800_0000) * 0x94d0_49bb_1331_11eb % TWO_64;
    Xor64(b, b / 0x8000_0000)
  }

  function Next(state: u64): u64 { (state + GAMMA) % TWO_64 }

  /** The state after `k` draws. */
  function After(state: u64, k: nat): u64 {
    if k == 0 then state else Next(After(state, k - 1))
  }

  lemma ZeroDrawsZero()
    ensures Output(0) == 0
  {
    assert Xor(0, 0) == 0;
  }

  /** How many draws it takes until the state is zero; a state of zero needs a full cycle. */
  function UntilZero(state: u64): (k: nat)
    ensures 1 <= k <= TWO_64
  {
    var k := (TWO_64 - state) * GAMMA_INVERSE % TWO_64;
    if k == 0 then TWO_64 else k
  }

  lemma InverseIsInverse()
    ensures GAMMA * GAMMA_INVERSE == 10771413168148108919 * TWO_64 + 1
  {
  }

  /** Only at zero is there nothing to go. */
  lemma OnlyZero(state: u64)
    requires (TWO_64 - state) * GAMMA_INVERSE % TWO_64 == 0
    ensures state == 0
  {
    var m := (TWO_64 - state) * GAMMA_INVERSE;
    var q := m / TWO_64;
    assert m == q * TWO_64;
    InverseIsInverse();
    assert m * GAMMA == (TWO_64 - state) * (10771413168148108919 * TWO_64 + 1);
    assert TWO_64 - state == (q * GAMMA - (TWO_64 - state) * 10771413168148108919) * TWO_64;
  }

  lemma OneLess(a: int, m: int, j: int)
    requires a == m - 1 + j * TWO_64
    ensures a % TWO_64 == if m % TWO_64 == 0 then TWO_64 - 1 else m % TWO_64 - 1
  {
    var q, r := m / TWO_64, m % TWO_64;
    if r == 0 {
      Remainder(a, q + j - 1, TWO_64 - 1);
    } else {
      Remainder(a, q + j, r - 1);
    }
  }

  lemma Remainder(a: int, q: int, r: int)
    requires a == q * TWO_64 + r && 0 <= r < TWO_64
    ensures a % TWO_64 == r
  {
  }

  /** Each draw is one closer, unless it arrives. */
  lemma DrawsCount(state: u64)
    ensures Next(state) == 0 || UntilZero(Next(state)) == UntilZero(state) - 1
  {
    var s', m := Next(state), (TWO_64 - state) * GAMMA_INVERSE;
    InverseIsInverse();
    var wrap := (state + GAMMA) / TWO_64;
    assert s' == state + GAMMA - wrap * TWO_64;
    OneLess((TWO_64 - s') * GAMMA_INVERSE, m, wrap * GAMMA_INVERSE - 10771413168148108919);
    if m % TWO_64 == 1 {
      OnlyZero(s');
    }
  }

  // ----- exclusive or -----

  lemma XorHalf(a: nat, b: nat)
    ensures Xor(a, b) / 2 == Xor(a / 2, b / 2) && Xor(a, b) % 2 == if a % 2 == b % 2 then 0 else 1
  {
  }

  lemma {:induction false} XorSelf(a: nat)
    ensures Xor(a, a) == 0
  {
    if a > 0 {
      XorSelf(a / 2);
    }
  }

  lemma {:induction false} XorComm(a: nat, b: nat)
    ensures Xor(a, b) == Xor(b, a)
    decreases a + b
  {
    if a + b > 0 {
      XorComm(a / 2, b / 2);
    }
  }

  /** The low digit of three words. */
  function Low(a: nat, b: nat, c: nat): nat { if (a % 2 == b % 2) == (c % 2 == 0) then 0 else 1 }

  lemma DigitsOfThree(a: nat, b: nat, c: nat, u: nat, h: nat)
    requires u / 2 == h && u % 2 == if a % 2 == b % 2 then 0 else 1
    ensures Xor(u, c) / 2 == Xor(h, c / 2) && Xor(u, c) % 2 == Low(a, b, c)
  {
    XorHalf(u, c);
  }

  lemma RotateFromHalves(a: nat, b: nat, c: nat, left: nat, right: nat, h: nat)
    requires left / 2 == right / 2 == h && left % 2 == Low(a, b, c) && right % 2 == Low(b, c, a)
    ensures left == right
  {
  }

  lemma {:induction false} XorRotates(a: nat, b: nat, c: nat)
    ensures Xor(Xor(a, b), c) == Xor(Xor(b, c), a)
    decreases a + b + c
  {
    if a + b + c > 0 {
      var h, k := Xor(a / 2, b / 2), Xor(b / 2, c / 2);
      XorRotates(a / 2, b / 2, c / 2);
      XorHalf(a, b);
      XorHalf(b, c);
      DigitsOfThree(a, b, c, Xor(a, b), h);
      DigitsOfThree(b, c, a, Xor(b, c), k);
      RotateFromHalves(a, b, c, Xor(Xor(a, b), c), Xor(Xor(b, c), a), Xor(h, c / 2));
    }
  }

  lemma XorAssoc(a: nat, b: nat, c: nat)
    ensures Xor(Xor(a, b), c) == Xor(a, Xor(b, c))
  {
    XorRotates(a, b, c);
    XorComm(a, Xor(b, c));
  }

  lemma {:induction false} XorZeroMeansEqual(a: nat, b: nat)
    requires Xor(a, b) == 0
    ensures a == b
    decreases a + b
  {
    if a + b > 0 {
      XorHalf(a, b);
      XorZeroMeansEqual(a / 2, b / 2);
    }
  }

  /** Exclusive or may be taken pairwise in either way. */
  lemma XorSwap(a: nat, b: nat, c: nat, d: nat)
    ensures Xor(Xor(a, b), Xor(c, d)) == Xor(Xor(a, c), Xor(b, d))
  {
    XorAssoc(a, b, Xor(c, d));
    XorAssoc(b, c, d);
    XorComm(b, c);
    XorAssoc(c, b, d);
    XorAssoc(a, c, Xor(b, d));
  }

  // ----- shifting right -----

  function ShiftRight(x: nat, k: nat): nat
    decreases k
  {
    if k == 0 then x else ShiftRight(x / 2, k - 1)
  }

  lemma {:induction false} XorShift(a: nat, b: nat, k: nat)
    ensures ShiftRight(Xor(a, b), k) == Xor(ShiftRight(a, k), ShiftRight(b, k))
    decreases k
  {
    if k > 0 {
      XorHalf(a, b);
      XorShift(a / 2, b / 2, k - 1);
    }
  }

  lemma {:induction false} ShiftShrinks(x: nat, k: nat)
    ensures ShiftRight(x, k) <= x
    decreases k
  {
    if k > 0 {
      ShiftShrinks(x / 2, k - 1);
    }
  }

  lemma DivideTwice(a: nat, p: nat)
    requires p > 0
    ensures a / (2 * p) == a / 2 / p
  {
    var h := a / 2;
    var q, r := h / p, h % p;
    assert h == q * p + r;
    assert a == q * (2 * p) + (2 * r + a % 2);
    QuotientIs(a, 2 * p, q, 2 * r + a % 2);
  }

  lemma {:induction false} ShiftDivides(x: nat, k: nat)
    ensures Pow2(k) > 0 && ShiftRight(x, k) == x / Pow2(k)
    decreases k
  {
    if k > 0 {
      ShiftDivides(x / 2, k - 1);
      DivideTwice(x, Pow2(k - 1));
    }
  }

  lemma XorsEqual(x: nat, a: nat, y: nat, b: nat)
    requires Xor(x, a) == Xor(y, b)
    ensures Xor(x, y) == Xor(a, b)
  {
    XorSelf(Xor(x, a));
    XorSwap(x, a, y, b);
    XorZeroMeansEqual(Xor(x, y), Xor(a, b));
  }

  /** A word is determined by its exclusive or with its own shift. */
  lemma ShiftXorInjective(x: nat, y: nat, k: nat, a: nat, b: nat)
    requires k > 0 && a == ShiftRight(x, k) && b == ShiftRight(y, k) && Xor(x, a) == Xor(y, b)
    ensures x == y
  {
    var d := Xor(x, y);
    XorsEqual(x, a, y, b);
    XorShift(x, y, k);
    ShiftShrinks(d / 2, k - 1);
    XorZeroMeansEqual(x, y);
  }

  // ----- multiplication by an odd constant -----

  /** Multiplying by an inverse undoes a wrapping multiplication. */
  lemma Undo(x: u64, c: nat, inverse: nat, q: nat)
    requires c * inverse == q * TWO_64 + 1
    ensures x * c % TWO_64 * inverse % TWO_64 == x
  {
    var product := x * c;
    var m, low := product / TWO_64, product % TWO_64;
    assert low == product - m * TWO_64;
    calc {
      low * inverse;
      (product - m * TWO_64) * inverse;
      x * c * inverse - m * TWO_64 * inverse;
      { Regroup(x, c, inverse); }
      x * (q * TWO_64 + 1) - m * inverse * TWO_64;
      (x * q - m * inverse) * TWO_64 + x;
    }
    Remainder(low * inverse, x * q - m * inverse, x);
  }

  lemma Regroup(a: int, b: int, c: int)
    ensures a * b * c == a * (b * c)
  {
  }

  lemma FirstRound(x: u64, y: u64)
    requires x * 0xbf58_476d_1ce4_e5b9 % TWO_64 == y * 0xbf58_476d_1ce4_e5b9 % TWO_64
    ensures x == y
  {
    Undo(x, 0xbf58_476d_1ce4_e5b9, 0x96de_1b17_3f11_9089, 8125545580553827436);
    Undo(y, 0xbf58_476d_1ce4_e5b9, 0x96de_1b17_3f11_9089, 8125545580553827436);
  }

  lemma SecondRound(x: u64, y: u64)
    requires x * 0x94d0_49bb_1331_11eb % TWO_64 == y * 0x94d0_49bb_1331_11eb % TWO_64
    ensures x == y
  {
    Undo(x, 0x94d0_49bb_1331_11eb, 0x3196_42b2_d24d_8ec3, 2077064247507883091);
    Undo(y, 0x94d0_49bb_1331_11eb, 0x3196_42b2_d24d_8ec3, 2077064247507883091);
  }

  lemma ShiftWidths(x: nat)
    ensures ShiftRight(x, 30) == x / 0x4000_0000 && ShiftRight(x, 27) == x / 0x800_0000 && ShiftRight(x, 31) == x / 0x8000_0000
  {
    assert Pow2(7) == 128 && Pow2(10) == 1024;
    Pow2Sum(10, 10);
    Pow2Sum(20, 7);
    Pow2Sum(20, 10);
    assert Pow2(31) == 2 * Pow2(30);
    ShiftDivides(x, 30);
    ShiftDivides(x, 27);
    ShiftDivides(x, 31);
  }

  /** No two states have the same output. */
  lemma OutputInjective(s: u64, t: u64)
    requires Output(s) == Output(t)
    ensures s == t
  {
    var s1, t1 := Xor64(s, s / 0x4000_0000), Xor64(t, t / 0x4000_0000);
    var a, b := s1 * 0xbf58_476d_1ce4_e5b9 % TWO_64, t1 * 0xbf58_476d_1ce4_e5b9 % TWO_64;
    var a1, b1 := Xor64(a, a / 0x800_0000), Xor64(b, b / 0x800_0000);
    var c, d := a1 * 0x94d0_49bb_1331_11eb % TWO_64, b1 * 0x94d0_49bb_1331_11eb % TWO_64;
    ShiftWidths(c);
    ShiftWidths(d);
    ShiftXorInjective(c, d, 31, c / 0x8000_0000, d / 0x8000_0000);
    SecondRound(a1, b1);
    ShiftWidths(a);
    ShiftWidths(b);
    ShiftXorInjective(a, b, 27, a / 0x800_0000, b / 0x800_0000);
    FirstRound(s1, t1);
    ShiftWidths(s);
    ShiftWidths(t);
    ShiftXorInjective(s, t, 30, s / 0x4000_0000, t / 0x4000_0000);
  }
}
