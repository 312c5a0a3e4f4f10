/** Binomial coefficients computed by exact division in 128 bits (src/math.rs). */
module Combinations {
  import opened Arithmetic
  import opened Wrappers

  /** Pascal's triangle: the number of ways to choose `k` of `n`. */
  function Binom(n: nat, k: nat): nat {
    if k == 0 then 1 else if n == 0 then 0 else Binom(n - 1, k - 1) + Binom(n - 1, k)
  }

  lemma {:induction false} BinomAbove(n: nat, k: nat)
    requires k > n
    ensures Binom(n, k) == 0
  {
    if n > 0 {
      BinomAbove(n - 1, k - 1);
      BinomAbove(n - 1, k);
    }
  }

  lemma {:induction false} Symmetric(n: nat, k: nat)
    requires k <= n
    ensures Binom(n, k) == Binom(n, n - k)
  {
    if n > 0 {
      if k == 0 {
        Symmetric(n - 1, 0);
        BinomAbove(n - 1, n);
      } else if k == n {
        Symmetric(n - 1, n - 1);
        BinomAbove(n - 1, n);
      } else {
        Symmetric(n - 1, k - 1);
        Symmetric(n - 1, k);
      }
    }
  }

  /** The step of the loop: `k` times the next coefficient is `n` times the one before, so the division is exact. */
  lemma {:induction false} Absorption(n: nat, k: nat)
    requires n > 0 && k > 0
    ensures k * Binom(n, k) == n * Binom(n - 1, k - 1)
  {
    var a, b := Binom(n - 1, k - 1), Binom(n - 1, k);
    if n == 1 {
      assert Binom(0, k) == 0 && Binom(1, k) == Binom(0, k - 1);
      if k > 1 { BinomAbove(0, k - 1); }
    } else {
      Absorption(n - 1, k);
      if k == 1 {
        assert Binom(n - 1, 0) == 1 && Binom(n - 2, 0) == 1;
      } else {
        Absorption(n - 1, k - 1);
        var c, d := Binom(n - 2, k - 2), Binom(n - 2, k - 1);
        assert a == c + d;
        Combine(n, k, a, b, c, d);
      }
    }
  }

  lemma Combine(n: nat, k: nat, a: nat, b: nat, c: nat, d: nat)
    requires n > 0 && k > 0 && a == c + d && (k - 1) * a == (n - 1) * c && k * b == (n - 1) * d
    ensures k * (a + b) == n * a
  {
    calc {
      k * (a + b);
      (k - 1) * a + a + k * b;
      (n - 1) * c + a + (n - 1) * d;
      (n - 1) * (c + d) + a;
      n * a;
    }
  }

  /** Along the loop the coefficients only grow. */
  lemma {:induction false} Grows(base: nat, i: nat, m: nat)
    requires i <= m
    ensures Binom(base + i, i) <= Binom(base + m, m)
    decreases m - i
  {
    if i < m {
      Grows(base, i + 1, m);
    }
  }

  lemma NoOverflow(index: nat, here: nat)
    requires index < TWO_63 && here < TWO_63
    ensures index * here < TWO_128
  {
    MulMonotone(index, TWO_63, here);
    MulMonotone(here, TWO_63, TWO_63);
  }

  lemma StepWith(n: nat, m: nat, index: nat, numerator: nat)
    requires 1 <= index <= m <= n < TWO_63
    requires numerator == (n - m + index) * Binom(n - m + index - 1, index - 1)
    ensures numerator / index == Binom(n - m + index, index)
    ensures numerator >= TWO_128 ==> Binom(n, m) >= TWO_63
  {
    var here := Binom(n - m + index, index);
    Absorption(n - m + index, index);
    QuotientIs(numerator, index, here, 0);
    Grows(n - m, index, m);
    if here < TWO_63 {
      NoOverflow(index, here);
    }
  }

  /** The product is the index times the next coefficient: division is exact, and it overflows only past any answer that fits. */
  lemma LoopStep(n: nat, m: nat, index: nat)
    requires 1 <= index <= m <= n < TWO_63
    ensures var numerator := Binom(n - m + index - 1, index - 1) * (n - m + index);
            && numerator / index == Binom(n - m + index, index)
            && (numerator >= TWO_128 ==> Binom(n, m) >= TWO_63)
  {
    StepWith(n, m, index, Binom(n - m + index - 1, index - 1) * (n - m + index));
  }

  /** The true binomial coefficient whenever the arguments are valid and it fits in 64 bits, and an error otherwise. */
  method Combinations(n: i64, k: i64) returns (r: Result<int>)
    ensures r == if 0 <= k <= n && Binom(n, k) < TWO_63 then Ok(Binom(n, k)) else Err
  {
    if n < 0 || k < 0 || k > n {
      return Err;
    }
    var m: nat := if k <= n - k then k else n - k;
    Symmetric(n, k);
    var result: nat := 1;
    var index := 1;
    while index <= m
      invariant 1 <= index <= m + 1
      invariant result == Binom(n - m + index - 1, index - 1)
    {
      LoopStep(n, m, index);
      var numerator := result * (n - m + index);
      if numerator >= TWO_128 {
        return Err;
      }
      result := numerator / index;
      index := index + 1;
    }
    if result >= TWO_63 {
      return Err;
    }
    r := Ok(result);
  }
}
