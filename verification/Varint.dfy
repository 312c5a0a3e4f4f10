/** Variable-length integers in a byte sequence (src/bytes.rs). */
module Varint {
  import opened Arithmetic
  import opened Wrappers

  // ----- what the bytes mean -----

  /** Base 128, low digits first; every byte but the last has its high bit set. */
  function Encoded(n: nat): seq<byte> {
    if n < 128 then [n] else [n % 128 + 128] + Encoded(n / 128)
  }

  function Payload(b: byte): nat { b % 128 }

  /** The number of bytes from `i` up to and including the first without the high bit. */
  function Length(bytes: seq<byte>, i: nat): Option<nat>
    decreases |bytes| - i
  {
    if i >= |bytes| then None
    else if bytes[i] < 128 then Some(1)
    else match Length(bytes, i + 1) case None => None case Some(n) => Some(n + 1)
  }

  /** The exact base-128 value of the `n` bytes from `i`. */
  function Value(bytes: seq<byte>, i: nat, n: nat): nat
    requires i + n <= |bytes|
    decreases n
  {
    if n == 0 then 0 else Payload(bytes[i]) + 128 * Value(bytes, i + 1, n - 1)
  }

  lemma {:induction false} LengthInside(bytes: seq<byte>, i: nat)
    ensures Length(bytes, i).Some? ==> 1 <= Length(bytes, i).value && i + Length(bytes, i).value <= |bytes|
    decreases |bytes| - i
  {
    if i < |bytes| {
      LengthInside(bytes, i + 1);
    }
  }

  /** A varint reads as its value exactly when it ends within ten bytes and the value is below 2^63. */
  function Decoded(bytes: seq<byte>, offset: int): Result<int> {
    if !(0 <= offset < |bytes|) || Length(bytes, offset).None? then Err
    else
      var n := Length(bytes, offset).value;
      LengthInside(bytes, offset);
      if n <= 10 && Value(bytes, offset, n) < TWO_63 then Ok(Value(bytes, offset, n)) else Err
  }

  // ----- reading -----

  /** Shifting left drops what does not fit in 64 bits. */
  function ShiftLeft(a: nat, bits: nat): u64 { a * Pow2(bits) % TWO_64 }

  lemma Pow2Of63()
    ensures Pow2(56) * 128 == TWO_63 && Pow2(63) == TWO_63
  {
    Pow2Of64();
    assert Pow2(64) == 2 * Pow2(63);
    Pow2Sum(56, 7);
    assert Pow2(7) == 128;
  }

  lemma {:induction false} Pow2Monotone(a: nat, b: nat)
    requires a <= b
    ensures Pow2(a) <= Pow2(b)
    decreases b - a
  {
    if a < b {
      Pow2Monotone(a + 1, b);
    }
  }

  lemma PayloadFits(payload: nat, weight: nat)
    requires payload < 128 && weight * 128 <= TWO_63
    ensures payload * weight < TWO_64
  {
    MulMonotone(payload, 128, weight);
  }

  lemma ShiftFits(payload: nat, bits: nat, weight: nat)
    requires payload < 128 && (bits <= 56 || (bits == 63 && payload <= 1)) && weight == Pow2(bits)
    ensures payload * weight < TWO_64
  {
    Pow2Of63();
    if bits <= 56 {
      Pow2Monotone(bits, 56);
      PayloadFits(payload, weight);
    } else {
      MulMonotone(payload, 1, weight);
    }
  }

  lemma NothingDropped(x: nat)
    requires x < TWO_64
    ensures x % TWO_64 == x
  {
  }

  /** No bit of a payload is lost: below the tenth byte there is room for seven bits, and there for one. */
  lemma ShiftExact(payload: nat, bits: nat)
    requires payload < 128 && (bits <= 56 || (bits == 63 && payload <= 1))
    ensures ShiftLeft(payload, bits) == payload * Pow2(bits)
  {
    ShiftFits(payload, bits, Pow2(bits));
    NothingDropped(payload * Pow2(bits));
  }

  lemma {:induction false} ValueMore(bytes: seq<byte>, i: nat, n: nat)
    requires i + n < |bytes|
    ensures Value(bytes, i, n + 1) == Value(bytes, i, n) + Payload(bytes[i + n]) * Pow2(7 * n)
    decreases n
  {
    if n > 0 {
      ValueMore(bytes, i + 1, n - 1);
      assert Pow2(7 * n) == 128 * Pow2(7 * (n - 1)) by {
        Pow2Sum(7 * (n - 1), 7);
        assert Pow2(7) == 128;
      }
      Distribute(Value(bytes, i + 1, n - 1), Payload(bytes[i + n]), Pow2(7 * (n - 1)));
    }
  }

  lemma Distribute(v: nat, p: nat, w: nat)
    ensures 128 * (v + p * w) == 128 * v + p * (128 * w)
  {
  }

  lemma {:induction false} ValueBelow(bytes: seq<byte>, i: nat, n: nat)
    requires i + n <= |bytes|
    ensures Value(bytes, i, n) < Pow2(7 * n)
    decreases n
  {
    if n > 0 {
      ValueBelow(bytes, i + 1, n - 1);
      Pow2Sum(7 * (n - 1), 7);
      assert Pow2(7) == 128;
    }
  }

  /** One byte more: a bitwise or of the shifted payload adds it to the value. */
  lemma OrAdds(bytes: seq<byte>, i: nat, n: nat)
    requires i + n < |bytes| && (n <= 8 || (n == 9 && Payload(bytes[i + n]) <= 1))
    ensures Or(Value(bytes, i, n), ShiftLeft(Payload(bytes[i + n]), 7 * n)) == Value(bytes, i, n + 1)
  {
    var payload := Payload(bytes[i + n]);
    ShiftExact(payload, 7 * n);
    ValueBelow(bytes, i, n);
    OrDisjoint(Value(bytes, i, n), payload, 7 * n);
    ValueMore(bytes, i, n);
  }

  /** A tenth payload above one is worth at least 2^64. */
  lemma TenthTooLarge(bytes: seq<byte>, i: nat)
    requires i + 9 < |bytes| && Payload(bytes[i + 9]) > 1
    ensures Value(bytes, i, 10) >= TWO_63
  {
    ValueMore(bytes, i, 9);
    Pow2Of63();
    MulMonotone(1, Payload(bytes[i + 9]), Pow2(63));
  }

  /** The first `j` bytes from the offset all have the high bit set. */
  predicate Continues(bytes: seq<byte>, offset: nat, j: nat) {
    offset + j <= |bytes| && forall i :: offset <= i < offset + j ==> bytes[i] >= 128
  }

  lemma {:induction false} LengthAfter(bytes: seq<byte>, offset: nat, j: nat)
    requires Continues(bytes, offset, j)
    ensures Length(bytes, offset) == match Length(bytes, offset + j) case None => None case Some(n) => Some(n + j)
    decreases j
  {
    if j > 0 {
      LengthAfter(bytes, offset + 1, j - 1);
    }
  }

  lemma Ends(bytes: seq<byte>, offset: nat, j: nat)
    requires Continues(bytes, offset, j) && offset + j < |bytes| && bytes[offset + j] < 128
    ensures Length(bytes, offset) == Some(j + 1)
  {
    LengthAfter(bytes, offset, j);
  }

  lemma NeverEnds(bytes: seq<byte>, offset: nat, j: nat)
    requires Continues(bytes, offset, j) && (j >= 10 || offset + j == |bytes|)
    ensures Decoded(bytes, offset) == Err
  {
    LengthAfter(bytes, offset, j);
    LengthInside(bytes, offset + j);
  }

  lemma TenthFails(bytes: seq<byte>, offset: nat)
    requires Continues(bytes, offset, 9) && offset + 9 < |bytes| && (Payload(bytes[offset + 9]) > 1 || bytes[offset + 9] >= 128)
    ensures Decoded(bytes, offset) == Err
  {
    if bytes[offset + 9] >= 128 {
      NeverEnds(bytes, offset, 10);
    } else {
      Ends(bytes, offset, 9);
      TenthTooLarge(bytes, offset);
    }
  }

  /** After `j` bytes, all with the high bit set, their value is accumulated and the shift is past them. */
  predicate Reading(bytes: seq<byte>, offset: nat, j: nat, result: nat, shift: nat) {
    j <= 10 && shift == 7 * j && Continues(bytes, offset, j) && result == Value(bytes, offset, j)
  }

  /** One byte that passes the checks: the value grows by it, or is complete. */
  lemma ReadOne(bytes: seq<byte>, offset: nat, j: nat, result: nat, shift: nat)
    requires Reading(bytes, offset, j, result, shift) && offset + j < |bytes| && shift < 64
    requires shift == 63 ==> Payload(bytes[offset + j]) <= 1 && bytes[offset + j] < 128
    ensures var more := Or(result, ShiftLeft(Payload(bytes[offset + j]), shift));
            && (bytes[offset + j] >= 128 ==> Reading(bytes, offset, j + 1, more, shift + 7))
            && (bytes[offset + j] < 128 ==> Decoded(bytes, offset) == if more < TWO_63 then Ok(more) else Err)
  {
    OrAdds(bytes, offset, j);
    if bytes[offset + j] < 128 {
      Ends(bytes, offset, j);
    }
  }

  method ReadVarint(bytes: seq<byte>, offset: i64) returns (r: Result<int>)
    ensures r == Decoded(bytes, offset)
  {
    if offset < 0 || offset >= |bytes| {
      return Err;
    }
    var result: nat, shift: nat, i: nat := 0, 0, offset;
    while i < |bytes|
      invariant offset <= i <= |bytes| && Reading(bytes, offset, i - offset, result, shift)
    {
      if shift >= 64 {
        NeverEnds(bytes, offset, i - offset);
        return Err;
      }
      var payload := Payload(bytes[i]);
      if shift == 63 && (payload > 1 || bytes[i] >= 128) {
        TenthFails(bytes, offset);
        return Err;
      }
      ReadOne(bytes, offset, i - offset, result, shift);
      result := Or(result, ShiftLeft(payload, shift));
      if bytes[i] < 128 {
        return if result < TWO_63 then Ok(result) else Err;
      }
      shift := shift + 7;
      i := i + 1;
    }
    NeverEnds(bytes, offset, i - offset);
    r := Err;
  }

  // ----- writing -----

  function Placed(bytes: seq<byte>, at: nat, part: seq<byte>): seq<byte>
    requires at + |part| <= |bytes|
  {
    bytes[..at] + part + bytes[at + |part|..]
  }

  /** Setting the high bit of a payload adds 128. */
  lemma HighBit(payload: nat)
    requires payload < 128
    ensures Or(payload, 128) == payload + 128
  {
    assert Pow2(7) == 128;
    OrDisjoint(payload, 1, 7);
  }

  method Encode(number: nat) returns (encoded: seq<byte>)
    ensures encoded == Encoded(number)
  {
    encoded := [];
    var rest := number;
    while true
      invariant encoded + Encoded(rest) == Encoded(number)
      decreases rest
    {
      var b := rest % 128;
      HighBit(b);
      ghost var whole := encoded + Encoded(rest);
      var more := rest / 128;
      if more != 0 {
        b := Or(b, 128);
      }
      assert whole == encoded + [b] + if more == 0 then [] else Encoded(more);
      rest := more;
      encoded := encoded + [b];
      if rest == 0 {
        break;
      }
    }
  }

  /** Writes the encoding at the offset and nothing else; an error changes nothing. */
  method WriteVarint(bytes: array<byte>, offset: i64, number: i64) returns (r: Result<int>)
    modifies bytes
    ensures r.Ok? <==> number >= 0 && offset >= 0 && offset + |Encoded(number)| <= bytes.Length
    ensures r.Ok? ==> r.value == |Encoded(number)| && bytes[..] == Placed(old(bytes[..]), offset, Encoded(number))
    ensures r.Err? ==> bytes[..] == old(bytes[..])
  {
    if number < 0 || offset < 0 {
      return Err;
    }
    var encoded := Encode(number);
    var end := offset + |encoded|;
    if end > bytes.Length {
      return Err;
    }
    forall k | 0 <= k < |encoded| {
      bytes[offset + k] := encoded[k];
    }
    assert bytes[..] == Placed(old(bytes[..]), offset, encoded);
    r := Ok(|encoded|);
  }

  // ----- the round trip -----

  lemma {:induction false} EncodedShort(n: nat, k: nat)
    requires k > 0 && n < Pow2(7 * k)
    ensures |Encoded(n)| <= k
    decreases k
  {
    if n >= 128 {
      assert Pow2(7) == 128;
      Pow2Sum(7 * (k - 1), 7);
      EncodedShort(n / 128, k - 1);
    }
  }

  lemma {:induction false} ReadsBack(bytes: seq<byte>, i: nat, n: nat)
    requires i + |Encoded(n)| <= |bytes| && bytes[i..i + |Encoded(n)|] == Encoded(n)
    ensures Length(bytes, i) == Some(|Encoded(n)|) && Value(bytes, i, |Encoded(n)|) == n
    decreases n
  {
    assert bytes[i] == Encoded(n)[0];
    if n >= 128 {
      assert bytes[i + 1..i + |Encoded(n)|] == bytes[i..i + |Encoded(n)|][1..] == Encoded(n / 128);
      ReadsBack(bytes, i + 1, n / 128);
    }
  }

  /** What was written is read back, from the same offset, whatever surrounds it; no other byte changed. */
  lemma RoundTrip(bytes: seq<byte>, at: nat, n: nat)
    requires n < TWO_63 && at + |Encoded(n)| <= |bytes|
    ensures Decoded(Placed(bytes, at, Encoded(n)), at) == Ok(n)
    ensures |Placed(bytes, at, Encoded(n))| == |bytes|
    ensures forall i :: 0 <= i < |bytes| && !(at <= i < at + |Encoded(n)|) ==> Placed(bytes, at, Encoded(n))[i] == bytes[i]
  {
    Pow2Of63();
    EncodedShort(n, 9);
    ReadsBack(Placed(bytes, at, Encoded(n)), at, n);
  }
}
