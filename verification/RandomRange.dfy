/**
 Random integers in a range (src/random.rs): rejection sampling over SplitMix64,
 fixed-point scaling of the module generator, and the in-place shuffle.
 */
module RandomRange {
  import opened Arithmetic
  import opened SplitMix

  // ----- sampling a range -----

  /** The candidates below the limit split evenly over the span. */
  function Limit(span: nat): (limit: nat)
    requires 0 < span <= TWO_64
    ensures 0 < limit <= TWO_64 && limit % span == 0 && TWO_64 - limit < span
  {
    MultipleOf(TWO_64, span);
    TWO_64 - TWO_64 % span
  }

  lemma MultipleOf(a: nat, d: nat)
    requires 0 < d <= a
    ensures 0 < a - a % d && (a - a % d) % d == 0 && (a - a % d) / d == a / d
  {
    var q := a / d;
    assert a - a % d == q * d + 0;
    QuotientIs(a - a % d, d, q, 0);
  }

  /** The candidates below `limit` that leave remainder `r`. */
  ghost function Candidates(limit: nat, span: nat, r: nat): set<nat>
    requires span > 0
  {
    set c: nat | c < limit && c % span == r
  }

  /** Every residue has the same number of accepted candidates, so the sample is unbiased. */
  lemma {:induction false} Uniform(turns: nat, span: nat, r: nat)
    requires r < span
    ensures |Candidates(turns * span, span, r)| == turns
  {
    if turns == 0 {
      assert Candidates(0, span, r) == {};
    } else {
      var limit, last := (turns - 1) * span, (turns - 1) * span + r;
      assert turns * span == limit + span;
      QuotientIs(last, span, turns - 1, r);
      forall c: nat | limit <= c < limit + span && c % span == r ensures c == last {
        QuotientIs(c, span, turns - 1, c - limit);
      }
      assert Candidates(turns * span, span, r) == Candidates(limit, span, r) + {last};
      Uniform(turns - 1, span, r);
    }
  }

  lemma Unbiased(span: nat, r: nat)
    requires r < span <= TWO_64
    ensures |Candidates(Limit(span), span, r)| == Limit(span) / span == TWO_64 / span
  {
    MultipleOf(TWO_64, span);
    var turns := TWO_64 / span;
    assert Limit(span) == turns * span;
    Uniform(turns, span, r);
  }

  // ----- the same over the states of the generator -----

  predicate Below(s: u64, n: nat) { s < n }

  ghost function States(n: nat): set<u64>
    requires n <= TWO_64
  {
    set s: u64 | 0 <= s < n && Below(s, n)
  }

  lemma {:induction false} CountStates(n: nat)
    requires n <= TWO_64
    ensures |States(n)| == n
  {
    if n == 0 {
      assert States(0) == {};
    } else {
      CountStates(n - 1);
      assert States(n) == States(n - 1) + {n - 1};
    }
  }

  ghost function Outputs(states: set<u64>): set<u64> { set s | s in states :: Output(s) }

  lemma {:induction false} CountOutputs(states: set<u64>)
    ensures |Outputs(states)| == |states|
    decreases |states|
  {
    if states == {} {
      assert Outputs(states) == {};
    } else {
      var s :| s in states;
      var rest := states - {s};
      CountOutputs(rest);
      if Output(s) in Outputs(rest) {
        var t :| t in rest && Output(t) == Output(s);
        OutputInjective(s, t);
      }
      assert Outputs(states) == Outputs(rest) + {Output(s)};
    }
  }

  lemma AllOfIt(part: set<u64>, whole: set<u64>)
    requires part <= whole && |part| == |whole|
    ensures part == whole
  {
    assert |whole - part| == |whole| - |part|;
  }

  /** Every 64-bit word is the output of exactly one state. */
  lemma EveryWordIsDrawn(word: u64) returns (state: u64)
    ensures Output(state) == word && forall t: u64 :: Output(t) == word ==> t == state
  {
    var all := States(TWO_64);
    CountOutputs(all);
    AllOfIt(Outputs(all), all);
    assert word in Outputs(all);
    state :| state in all && Output(state) == word;
    forall t: u64 | Output(t) == word ensures t == state {
      OutputInjective(t, state);
    }
  }

  /** The states whose output is one of `words`. */
  ghost function Drawing(words: set<u64>): set<u64> { set s: u64 | 0 <= s < TWO_64 && Output(s) in words }

  lemma AsManyStates(words: set<u64>)
    ensures |Drawing(words)| == |words|
  {
    forall word | word in words ensures word in Outputs(Drawing(words)) {
      var s := EveryWordIsDrawn(word);
      assert s in Drawing(words);
    }
    assert Outputs(Drawing(words)) == words;
    CountOutputs(Drawing(words));
  }

  /** Of the 2^64 states, equally many draw each value of a range. */
  lemma UnbiasedDraws(span: nat, r: nat)
    requires r < span <= TWO_64
    ensures forall c :: c in Candidates(Limit(span), span, r) ==> 0 <= c < TWO_64
    ensures |Drawing(Candidates(Limit(span), span, r))| == TWO_64 / span
  {
    Unbiased(span, r);
    AsManyStates(Candidates(Limit(span), span, r));
  }

  /** A seeded generator. */
  class Random {
    var state: u64

    constructor (seed: u64)
      ensures state == seed
    {
      state := seed;
    }

    method Draw() returns (value: u64)
      modifies this
      ensures state == Next(old(state)) && value == Output(state)
    {
      state := (state + GAMMA) % TWO_64;
      value := Output(state);
    }

    /** Draw until a candidate is below the limit, which happens within one cycle of the generator. */
    method Accept(limit: nat) returns (candidate: u64, ghost draws: nat)
      requires limit > 0
      modifies this
      ensures 1 <= draws <= TWO_64 && state == After(old(state), draws)
      ensures candidate == Output(state) < limit
      ensures forall k :: 1 <= k < draws ==> Output(After(old(state), k)) >= limit
    {
      ghost var left := UntilZero(state);
      draws := 0;
      ZeroDrawsZero();
      while true
        invariant state == After(old(state), draws) && left == UntilZero(state) && left + draws <= TWO_64
        invariant forall k :: 1 <= k <= draws ==> Output(After(old(state), k)) >= limit
        decreases left
      {
        DrawsCount(state);
        candidate := Draw();
        draws := draws + 1;
        if candidate < limit {
          return;
        }
        left := left - 1;
      }
    }

    /** The first accepted draw, reduced to the range. */
    method NextRange(min: i64, max: i64) returns (r: i64, ghost draws: nat)
      modifies this
      ensures state == After(old(state), draws)
      ensures min >= max ==> r == min && draws == 0
      ensures min < max ==> min <= r < max && 1 <= draws <= TWO_64
      ensures min < max ==> Output(state) < Limit(max - min) && r == min + Output(state) % (max - min)
      ensures min < max ==> forall k :: 1 <= k < draws ==> Output(After(old(state), k)) >= Limit(max - min)
    {
      if min >= max {
        return min, 0;
      }
      var span: nat := max - min;
      var limit := Limit(span);
      var candidate;
      candidate, draws := Accept(limit);
      r := min + candidate % span;
    }
  }

  // ----- the module generator -----

  const MULTIPLIER := 6_364_136_223_846_793_005
  const INCREMENT := 1_442_695_040_888_963_407

  /** A 31-bit fraction of the range, rounded down. */
  function Scaled(draw: nat, range: nat): nat { draw * range / TWO_31 }

  lemma ScaledBelow(draw: nat, range: nat)
    requires draw < TWO_31 && range > 0
    ensures Scaled(draw, range) < range
  {
    MulMonotone(draw, TWO_31 - 1, range);
  }

  /** Some output of the generator draws `v`. */
  ghost predicate Drawn(range: nat, v: nat) { exists draw :: 0 <= draw < TWO_31 && Scaled(draw, range) == v }

  lemma ValueDrawn(range: nat, v: nat)
    requires v < range <= TWO_31
    ensures Drawn(range, v)
  {
    var target := v * TWO_31;
    var draw := (target + range - 1) / range;
    var product := draw * range;
    assert target <= product < target + range by {
      assert target + range - 1 == product + (target + range - 1) % range;
    }
    if draw >= TWO_31 {
      MulMonotone(TWO_31, draw, range);
      assert false;
    }
    assert Scaled(draw, range) == v;
  }

  /** No output reaches the last value of a range wider than the generator. */
  lemma LastMissed(range: nat, draw: nat)
    requires range > TWO_31 && draw < TWO_31
    ensures Scaled(draw, range) < range - 1
  {
    MulMonotone(draw, TWO_31 - 1, range);
    assert draw * range < (range - 1) * TWO_31;
  }

  /** Every value of a range is drawn by some output exactly when the range is no wider than the generator. */
  lemma EveryValueDrawn(range: nat)
    requires range > 0
    ensures (forall v: nat :: v < range ==> Drawn(range, v)) <==> range <= TWO_31
  {
    if range <= TWO_31 {
      forall v: nat | v < range ensures Drawn(range, v) {
        ValueDrawn(range, v);
      }
    } else if Drawn(range, range - 1) {
      var draw :| 0 <= draw < TWO_31 && Scaled(draw, range) == range - 1;
      LastMissed(range, draw);
      assert false;
    }
  }

  // ----- shuffling -----

  function Step(state: u64): u64 { (state * MULTIPLIER + INCREMENT) % TWO_64 }

  function Swapped<T>(s: seq<T>, i: nat, j: nat): (r: seq<T>)
    requires i < |s| && j < |s|
    ensures |r| == |s|
  {
    s[i := s[j]][j := s[i]]
  }

  /** The places a shuffle of the first `n` items may choose: for the last of them any, then one fewer each time. */
  predicate Choices(ds: seq<nat>, n: nat)
    decreases n
  {
    if n <= 1 then ds == [] else ds != [] && ds[0] < n && Choices(ds[1..], n - 1)
  }

  /** The first `n` items shuffled by the choices `ds`. */
  function Shuffled<T>(s: seq<T>, n: nat, ds: seq<nat>): (r: seq<T>)
    requires n <= |s| && Choices(ds, n)
    ensures |r| == |s|
    decreases n
  {
    if n <= 1 then s else Shuffled(Swapped(s, n - 1, ds[0]), n - 1, ds[1..])
  }

  /** The choices the generator makes from a state, and the state it is then in. */
  function Draws(state: u64, n: nat): (ds: seq<nat>)
    ensures Choices(ds, n)
    decreases n
  {
    if n <= 1 then []
    else
      var next := Step(state);
      ScaledBelow(next / TWO_33, n);
      [Scaled(next / TWO_33, n)] + Draws(next, n - 1)
  }

  function StateAfter(state: u64, n: nat): u64
    decreases n
  {
    if n <= 1 then state else StateAfter(Step(state), n - 1)
  }

  lemma SwapPermutes<T>(s: seq<T>, i: nat, j: nat)
    requires i < |s| && j < |s|
    ensures multiset(Swapped(s, i, j)) == multiset(s)
  {
    var once := s[i := s[j]];
    assert multiset(once) == multiset(s) - multiset{s[i]} + multiset{s[j]};
    assert multiset(once[j := s[i]]) == multiset(once) - multiset{once[j]} + multiset{s[i]};
  }

  /** Whatever is chosen, nothing is lost or repeated, and the items past `n` stay. */
  lemma {:induction false} ShuffledPermutes<T>(s: seq<T>, n: nat, ds: seq<nat>)
    requires n <= |s| && Choices(ds, n)
    ensures multiset(Shuffled(s, n, ds)) == multiset(s)
    ensures Shuffled(s, n, ds)[n..] == s[n..]
    decreases n
  {
    if n > 1 {
      var t := Swapped(s, n - 1, ds[0]);
      SwapPermutes(s, n - 1, ds[0]);
      ShuffledPermutes(t, n - 1, ds[1..]);
      var r := Shuffled(t, n - 1, ds[1..]);
      assert forall i :: n <= i < |s| ==> r[i] == r[n - 1..][i - n + 1] == t[n - 1..][i - n + 1] == s[i];
    }
  }

  ghost predicate Distinct<T>(s: seq<T>) { forall x :: x in s ==> multiset(s)[x] == 1 }

  lemma DistinctAt<T>(s: seq<T>, i: nat, j: nat)
    requires Distinct(s) && i < j < |s|
    ensures s[i] != s[j]
  {
    assert s == s[..j] + s[j..];
    assert s[i] == s[..j][i] && s[j] == s[j..][0];
    assert s[i] in multiset(s[..j]) && s[j] in multiset(s[j..]) && s[i] in s;
    assert multiset(s) == multiset(s[..j]) + multiset(s[j..]);
  }

  /** The item put at place `n - 1` is the chosen one, and stays there. */
  lemma LastIsChosen<T>(s: seq<T>, n: nat, ds: seq<nat>)
    requires 1 < n <= |s| && Choices(ds, n)
    ensures Shuffled(s, n, ds)[n - 1] == s[ds[0]]
  {
    var t := Swapped(s, n - 1, ds[0]);
    ShuffledPermutes(t, n - 1, ds[1..]);
    var r := Shuffled(t, n - 1, ds[1..]);
    assert r[n - 1] == r[n - 1..][0] == t[n - 1..][0] == t[n - 1];
  }

  /** On distinct items, different choices give different orders. */
  lemma {:induction false} ChoicesDetermined<T>(s: seq<T>, n: nat, ds: seq<nat>, es: seq<nat>)
    requires n <= |s| && Distinct(s) && Choices(ds, n) && Choices(es, n)
    requires Shuffled(s, n, ds) == Shuffled(s, n, es)
    ensures ds == es
    decreases n
  {
    if n > 1 {
      LastIsChosen(s, n, ds);
      LastIsChosen(s, n, es);
      if ds[0] != es[0] {
        DistinctAt(s, if ds[0] < es[0] then ds[0] else es[0], if ds[0] < es[0] then es[0] else ds[0]);
        assert false;
      }
      var t := Swapped(s, n - 1, ds[0]);
      SwapPermutes(s, n - 1, ds[0]);
      SameItems(s, t);
      ChoicesDetermined(t, n - 1, ds[1..], es[1..]);
      assert ds == [ds[0]] + ds[1..] && es == [es[0]] + es[1..];
    }
  }

  lemma SameItems<T>(s: seq<T>, t: seq<T>)
    requires multiset(s) == multiset(t) && Distinct(s)
    ensures |s| == |t| && Distinct(t)
  {
    assert |multiset(s)| == |s| && |multiset(t)| == |t|;
    forall x | x in t ensures multiset(t)[x] == 1 {
      assert x in multiset(t) && x in multiset(s);
    }
  }

  /** Where the item that belongs at place `n - 1` still is. */
  lemma FindChoice<T>(s: seq<T>, t: seq<T>, n: nat) returns (d: nat)
    requires |s| == |t| && 0 < n <= |s| && multiset(t) == multiset(s) && Distinct(s) && t[n..] == s[n..]
    ensures d < n && s[d] == t[n - 1]
  {
    assert t[n - 1] in multiset(t);
    d :| d < |s| && s[d] == t[n - 1];
    if d >= n {
      SameItems(s, t);
      assert t[d] == t[n..][d - n] == s[n..][d - n];
      DistinctAt(t, n - 1, d);
      assert false;
    }
  }

  lemma SwapPlaces<T>(s: seq<T>, t: seq<T>, n: nat, d: nat)
    requires |s| == |t| && d < n <= |s| && s[d] == t[n - 1] && t[n..] == s[n..]
    ensures t[n - 1..] == Swapped(s, n - 1, d)[n - 1..]
  {
    var u := Swapped(s, n - 1, d);
    assert u[n - 1..] == [u[n - 1]] + u[n..] && t[n - 1..] == [t[n - 1]] + t[n..];
    assert u[n..] == s[n..];
  }

  /** Every order of distinct items is reached by some choices. */
  lemma {:induction false} EveryOrderReached<T>(s: seq<T>, t: seq<T>, n: nat) returns (ds: seq<nat>)
    requires |s| == |t| && n <= |s| && Distinct(s) && multiset(t) == multiset(s) && t[n..] == s[n..]
    ensures Choices(ds, n) && Shuffled(s, n, ds) == t
    decreases n
  {
    ds := [];
    if n > 1 {
      var d := FindChoice(s, t, n);
      var u := Swapped(s, n - 1, d);
      SwapPermutes(s, n - 1, d);
      SameItems(s, u);
      SwapPlaces(s, t, n, d);
      var rest := EveryOrderReached(u, t, n - 1);
      ds := [d] + rest;
      assert ds[1..] == rest;
    } else if n == 1 {
      var d := FindChoice(s, t, n);
      assert s == [s[0]] + s[1..] && t == [t[0]] + t[1..];
    } else {
      assert s == s[n..] && t == t[n..];
    }
  }

  /** Choices and orders of distinct items correspond one to one. */
  lemma ShuffleIsOneToOne<T>(s: seq<T>, t: seq<T>)
    requires Distinct(s)
    ensures multiset(t) == multiset(s) <==> exists ds :: Choices(ds, |s|) && Shuffled(s, |s|, ds) == t
    ensures forall ds, es :: Choices(ds, |s|) && Choices(es, |s|) && Shuffled(s, |s|, ds) == t == Shuffled(s, |s|, es) ==> ds == es
  {
    if multiset(t) == multiset(s) {
      SameItems(s, t);
      var ds := EveryOrderReached(s, t, |s|);
      assert Choices(ds, |s|) && Shuffled(s, |s|, ds) == t;
    }
    forall ds | Choices(ds, |s|) ensures multiset(Shuffled(s, |s|, ds)) == multiset(s) {
      ShuffledPermutes(s, |s|, ds);
    }
    forall ds, es | Choices(ds, |s|) && Choices(es, |s|) && Shuffled(s, |s|, ds) == t == Shuffled(s, |s|, es) ensures ds == es {
      ChoicesDetermined(s, |s|, ds, es);
    }
  }

  class Module {
    var state: u64

    constructor (seed: u64)
      ensures state == seed
    {
      state := seed;
    }

    method Int() returns (r: nat)
      modifies this
      ensures state == Step(old(state))
      ensures r == state / TWO_33 < TWO_31
    {
      state := (state * MULTIPLIER + INCREMENT) % TWO_64;
      r := state / TWO_33;
    }

    method Range(min: i64, max: i64) returns (r: i64)
      modifies this
      ensures if min < max then state == Step(old(state)) && min <= r < max && r == min + Scaled(state / TWO_33, max - min)
              else r == min && state == old(state)
    {
      if min >= max {
        return min;
      }
      var range: nat := max - min;
      var draw := Int();
      ScaledBelow(draw, range);
      r := min + Scaled(draw, range);
    }

    /** Fisher-Yates: the items are shuffled by the choices the generator makes. */
    method Shuffle<T>(items: array<T>)
      requires items.Length < 0x8000_0000_0000_0000
      modifies this, items
      ensures items[..] == Shuffled(old(items[..]), items.Length, Draws(old(state), items.Length))
      ensures state == StateAfter(old(state), items.Length)
      ensures multiset(items[..]) == multiset(old(items[..]))
    {
      var index := items.Length;
      while index > 1
        invariant 0 <= index <= items.Length
        invariant Shuffled(items[..], index, Draws(state, index)) == Shuffled(old(items[..]), items.Length, Draws(old(state), items.Length))
        invariant StateAfter(state, index) == StateAfter(old(state), items.Length)
      {
        ghost var before := items[..];
        index := index - 1;
        var other := Range(0, index + 1);
        items[index], items[other] := items[other], items[index];
        assert items[..] == Swapped(before, index, other);
      }
      ShuffledPermutes(old(items[..]), items.Length, Draws(old(state), items.Length));
    }
  }
}
