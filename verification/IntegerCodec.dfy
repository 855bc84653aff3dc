/** HPACK integers with an n-bit prefix (section 5.1 of RFC 7541): the encoder
    writes any uint64, the decoder accepts at most nine continuation bytes. */
module IntegerCodec {
  import opened Wrappers
  import opened Bits

  const TWO63: nat := 0x8000_0000_0000_0000
  const TWO64: nat := 0x1_0000_0000_0000_0000

  datatype IntResult = Int(value: nat, rest: seq<Byte>) | NeedsMore | Overflow

  /** Uint64 addition wraps around. */
  function Wrap64(x: nat): (y: nat) {
    if x < TWO64 then x else x % TWO64
  }

  /** 2^n - 1 for the four prefix lengths of HPACK. */
  function Bound(n: nat): (b: nat) {
    if n == 4 then 15 else if n == 5 then 31 else if n == 6 then 63 else 127
  }

  /** x & (m - 1), for an x below 2 * m. */
  function ClearBit(x: nat, m: nat): (y: nat) {
    if x >= m then x - m else x
  }

  function Low7(b: Byte): (x: nat) {
    ClearBit(b, 128)
  }

  /** The n low bits of a byte. */
  function Prefix(b: Byte, n: nat): (p: nat) {
    if n == 7 then Low7(b)
    else if n == 6 then ClearBit(Low7(b), 64)
    else if n == 5 then ClearBit(ClearBit(Low7(b), 64), 32)
    else ClearBit(ClearBit(ClearBit(Low7(b), 64), 32), 16)
  }

  /** The mask occupies the bits above an n-bit prefix, so `mask|x` is `mask + x`. */
  predicate ValidPrefix(mask: Byte, n: nat) {
    4 <= n <= 7 && Prefix(mask, n) == 0
  }

  function EncContinuation(i: nat): (r: seq<Byte>)
    ensures |r| > 0
  {
    if i >= 128 then
      var b: Byte := i % 128 + 128;
      [b] + EncContinuation(i / 128)
    else
      var b: Byte := i;
      [b]
  }

  function EncInteger(mask: Byte, n: nat, i: nat): (r: seq<Byte>)
    requires ValidPrefix(mask, n)
    ensures |r| > 0 && mask <= r[0] <= mask + Bound(n)
  {
    PrefixOfMasked(mask, n, if i < Bound(n) then i else Bound(n));
    if i < Bound(n) then
      var b: Byte := mask + i;
      [b]
    else
      var b: Byte := mask + Bound(n);
      [b] + EncContinuation(i - Bound(n))
  }

  /** The continuation bytes, added into a uint64 accumulator at bit position m. */
  function DecContinuation(data: seq<Byte>, acc: nat, m: nat): (r: IntResult)
    decreases |data|
  {
    if data == [] then NeedsMore
    else
      var acc' := Wrap64(acc + ShiftLeft(Low7(data[0]), m));
      if data[0] < 128 then Int(acc', data[1..])
      else if m + 7 >= 63 then Overflow
      else DecContinuation(data[1..], acc', m + 7)
  }

  function DecInteger(data: seq<Byte>, n: nat): (r: IntResult)
  {
    if data == [] then NeedsMore
    else
      var i := Prefix(data[0], n);
      if i < Bound(n) then Int(i, data[1..]) else DecContinuation(data[1..], i, 0)
  }

  method EncodeInteger(dst: seq<Byte>, mask: Byte, n: nat, i: nat) returns (r: seq<Byte>)
    requires ValidPrefix(mask, n)
    ensures r == dst + EncInteger(mask, n, i)
  {
    var bound := Bound(n);
    PrefixOfMasked(mask, n, if i < bound then i else bound);
    if i < bound {
      var first: Byte := mask + i;
      return dst + [first];
    }
    ghost var goal := dst + EncInteger(mask, n, i);
    var first: Byte := mask + bound;
    r := dst + [first];
    var x: nat := i - bound;
    Assoc(dst, [first], EncContinuation(x));
    while x >= 128
      invariant r + EncContinuation(x) == goal
    {
      var b: Byte := x % 128 + 128;
      DigitOut(r, x, b);
      r := r + [b];
      x := x / 128;
    }
    var last: Byte := x;
    r := r + [last];
  }

  lemma {:induction false} DigitOut(r: seq<Byte>, x: nat, b: Byte)
    requires x >= 128 && b == x % 128 + 128
    ensures r + EncContinuation(x) == r + [b] + EncContinuation(x / 128)
  {
    assert EncContinuation(x) == [b] + EncContinuation(x / 128);
  }

  method DecodeInteger(data: seq<Byte>, n: nat) returns (r: IntResult)
    requires 4 <= n <= 7
    ensures r == DecInteger(data, n)
  {
    if |data| == 0 {
      return NeedsMore;
    }
    var bound := Bound(n);
    var i: nat := Prefix(data[0], n);
    var rest := data[1..];
    if i < bound {
      return Int(i, rest);
    }
    var m: nat := 0;
    while |rest| > 0
      invariant DecInteger(data, n) == DecContinuation(rest, i, m)
    {
      var b := rest[0];
      rest := rest[1..];
      i := Wrap64(i + ShiftLeft(Low7(b), m));
      m := m + 7;
      if b < 128 {
        return Int(i, rest);
      }
      if m >= 63 {
        return Overflow;
      }
    }
    return NeedsMore;
  }

  lemma {:induction false} Pow2Values()
    ensures Pow2(7) == 128 && Pow2(63) == TWO63
  {
    assert Pow2(28) == 0x1000_0000 by { Pow2Plus7(0); Pow2Plus7(7); Pow2Plus7(14); Pow2Plus7(21); }
    assert Pow2(49) == 0x2_0000_0000_0000 by { Pow2Plus7(28); Pow2Plus7(35); Pow2Plus7(42); }
    Pow2Plus7(49);
    Pow2Plus7(56);
  }

  /** One more continuation byte keeps the accumulator below 2^63 plus what the prefix gave. */
  lemma {:induction false} AccumulatorStep(acc: nat, d: nat, m: nat, b: nat)
    requires m + 7 <= 63 && acc < Pow2(m) + b && d < 128
    ensures acc + ShiftLeft(d, m) < Pow2(m + 7) + b <= TWO63 + b
  {
    ShiftLeftMonotone(d, 127, m);
    ShiftLeftAdd(127, 1, m);
    ShiftLeftOne(m);
    ShiftBy7(1, m);
    ShiftLeftOne(m + 7);
    Pow2Monotone(m + 7, 63);
    Pow2Values();
  }

  lemma {:induction false} ShiftBy7(x: nat, m: nat)
    ensures ShiftLeft(128 * x, m) == ShiftLeft(x, m + 7)
  {
    assert ShiftLeft(x, 7) == 128 * x;
    ShiftLeftTwice(x, 7, m);
  }

  lemma {:induction false} ContinuationRoundTrip(i: nat, acc: nat, m: nat, rest: seq<Byte>)
    requires m + 7 <= 63 && (63 - m) % 7 == 0
    requires acc < Pow2(m) + 127
    requires i < Pow2(63 - m)
    ensures DecContinuation(EncContinuation(i) + rest, acc, m) == Int(acc + ShiftLeft(i, m), rest)
    decreases i
  {
    var d, j := i % 128, i / 128;
    AccumulatorStep(acc, d, m, 127);
    EncodedHead(i, rest);
    if i >= 128 {
      QuotientBound(i, m);
      assert d + 128 * j == i;
      ContinuationRoundTrip(j, acc + ShiftLeft(d, m), m + 7, rest);
      OneMoreByte(EncContinuation(i) + rest, acc, m, d, j, rest);
    } else {
      ContinuationEnd(EncContinuation(i) + rest, acc, m);
    }
  }

  lemma {:induction false} OneMoreByte(data: seq<Byte>, acc: nat, m: nat, d: nat, j: nat, rest: seq<Byte>)
    requires data != [] && d < 128 && data[0] == d + 128 && m + 7 < 63 && acc + ShiftLeft(d, m) < TWO64
    requires DecContinuation(data[1..], acc + ShiftLeft(d, m), m + 7) == Int(acc + ShiftLeft(d, m) + ShiftLeft(j, m + 7), rest)
    ensures DecContinuation(data, acc, m) == Int(acc + ShiftLeft(d + 128 * j, m), rest)
  {
    ContinuationStep(data, acc, m, d);
    ShiftDigits(d, j, m);
  }

  lemma {:induction false} EncodedHead(i: nat, rest: seq<Byte>)
    ensures var all := EncContinuation(i) + rest;
      if i >= 128 then all[0] == i % 128 + 128 && all[1..] == EncContinuation(i / 128) + rest
      else all[0] == i && all[1..] == rest
  {
  }

  lemma {:induction false} ContinuationEnd(data: seq<Byte>, acc: nat, m: nat)
    requires data != [] && data[0] < 128 && acc + ShiftLeft(data[0], m) < TWO64
    ensures DecContinuation(data, acc, m) == Int(acc + ShiftLeft(data[0], m), data[1..])
  {
  }

  lemma {:induction false} ShiftDigits(d: nat, j: nat, m: nat)
    ensures ShiftLeft(d, m) + ShiftLeft(j, m + 7) == ShiftLeft(d + 128 * j, m)
  {
    ShiftLeftAdd(d, 128 * j, m);
    ShiftBy7(j, m);
  }

  lemma {:induction false} ContinuationStep(data: seq<Byte>, acc: nat, m: nat, d: nat)
    requires data != [] && d < 128 && data[0] == d + 128 && m + 7 < 63
    requires acc + ShiftLeft(d, m) < TWO64
    ensures DecContinuation(data, acc, m) == DecContinuation(data[1..], acc + ShiftLeft(d, m), m + 7)
  {
  }

  lemma {:induction false} QuotientBound(i: nat, m: nat)
    requires m + 7 <= 63 && (63 - m) % 7 == 0
    requires 128 <= i < Pow2(63 - m)
    ensures m + 7 < 63 && i / 128 < Pow2(63 - (m + 7))
  {
    Pow2Values();
    if m + 7 < 63 { Pow2Plus7(63 - (m + 7)); }
  }

  lemma {:induction false} Pow2Plus7(m: nat)
    ensures Pow2(m + 7) == 128 * Pow2(m)
  {
    ShiftLeftOne(m);
    ShiftLeftOne(m + 7);
    ShiftLeftTwice(1, m, 7);
    assert ShiftLeft(Pow2(m), 7) == 128 * Pow2(m);
  }

  lemma {:induction false} ContinuationOverflow(i: nat, acc: nat, m: nat, rest: seq<Byte>)
    requires m + 7 <= 63 && (63 - m) % 7 == 0
    requires i >= Pow2(63 - m)
    ensures DecContinuation(EncContinuation(i) + rest, acc, m) == Overflow
    decreases i
  {
    Pow2Monotone(7, 63 - m);
    Pow2Values();
    var all := EncContinuation(i) + rest;
    assert all[1..] == EncContinuation(i / 128) + rest && all[0] >= 128;
    if m + 7 < 63 {
      Pow2Plus7(63 - (m + 7));
      ContinuationOverflow(i / 128, Wrap64(acc + ShiftLeft(Low7(all[0]), m)), m + 7, rest);
    }
  }

  lemma {:induction false} PrefixOfMasked(mask: Byte, n: nat, x: nat)
    requires ValidPrefix(mask, n) && x <= Bound(n)
    ensures mask + x < 256 && Prefix(mask + x, n) == x
  {
  }

  /** The decoder inverts the encoder exactly on the integers below 2^63 + 2^n - 1;
      from there on it reports an overflow. */
  lemma {:induction false} IntegerRoundTrip(mask: Byte, n: nat, i: nat, rest: seq<Byte>)
    requires ValidPrefix(mask, n)
    ensures DecInteger(EncInteger(mask, n, i) + rest, n) ==
            if i < TWO63 + Bound(n) then Int(i, rest) else Overflow
  {
    var e := EncInteger(mask, n, i);
    var all := e + rest;
    assert all[1..] == e[1..] + rest && all[0] == e[0];
    PrefixOfMasked(mask, n, if i < Bound(n) then i else Bound(n));
    if i >= Bound(n) {
      Pow2Values();
      assert DecInteger(all, n) == DecContinuation(all[1..], Bound(n), 0);
      if i - Bound(n) < TWO63 {
        ContinuationRoundTrip(i - Bound(n), Bound(n), 0, rest);
      } else {
        ContinuationOverflow(i - Bound(n), Bound(n), 0, rest);
      }
    }
  }

  lemma {:induction false} ContinuationBound(data: seq<Byte>, acc: nat, m: nat, b: nat)
    requires m + 7 <= 63 && (63 - m) % 7 == 0 && b <= 127
    requires acc < Pow2(m) + b
    ensures var r := DecContinuation(data, acc, m);
      r.Int? ==> r.value < TWO63 + b && |r.rest| < |data| && r.rest == data[|data| - |r.rest|..]
    ensures var r := DecContinuation(data, acc, m);
      r.Int? ==> r.value == acc + ShiftLeft(Base128(data[..|data| - |r.rest|]), m)
    decreases |data|
  {
    if data != [] {
      var d := Low7(data[0]);
      AccumulatorStep(acc, d, m, b);
      var acc' := acc + ShiftLeft(d, m);
      if data[0] < 128 {
        assert data[..1][1..] == [];
        assert Base128(data[..1]) == d;
      } else if m + 7 < 63 {
        ContinuationBound(data[1..], acc', m + 7, b);
        var r := DecContinuation(data[1..], acc', m + 7);
        if r.Int? {
          var k := |data| - |r.rest|;
          assert data[..k][1..] == data[1..][..k - 1];
          var v := Base128(data[..k][1..]);
          ShiftLeftAdd(d, 128 * v, m);
          ShiftBy7(v, m);
        }
      }
    }
  }

  /** The number that continuation bytes denote: base 128, least significant first. */
  function Base128(s: seq<Byte>): (v: nat) {
    if s == [] then 0 else Low7(s[0]) + 128 * Base128(s[1..])
  }

  lemma {:induction false} PrefixBound(b: Byte, n: nat)
    requires 4 <= n <= 7
    ensures Prefix(b, n) <= Bound(n)
  {
  }

  /** Every accepted integer is the number its bytes denote, below 2^63 + 2^n - 1, so the
      uint64 accumulator never wraps; the bytes after it are left alone. */
  lemma {:induction false} DecIntegerMeaning(data: seq<Byte>, n: nat)
    requires 4 <= n <= 7
    ensures var r := DecInteger(data, n);
      r.Int? ==>
        && |r.rest| < |data| && r.rest == data[|data| - |r.rest|..]
        && r.value < TWO63 + Bound(n)
        && r.value == Prefix(data[0], n) + Base128(data[1..|data| - |r.rest|])
        && (|data| - |r.rest| > 1 ==> Prefix(data[0], n) == Bound(n))
  {
    if data != [] {
      Pow2Values();
      var i := Prefix(data[0], n);
      var r := DecInteger(data, n);
      if i >= Bound(n) {
        PrefixBound(data[0], n);
        ContinuationBound(data[1..], i, 0, Bound(n));
        if r.Int? {
          var k := |data| - |r.rest|;
          assert data[1..][..k - 1] == data[1..k];
        }
      } else {
        assert data[1..1] == [];
      }
    }
  }

  lemma {:induction false} ContinuationExtend(data: seq<Byte>, acc: nat, m: nat, more: seq<Byte>)
    ensures var r := DecContinuation(data, acc, m);
      !r.NeedsMore? ==>
        DecContinuation(data + more, acc, m) == if r.Int? then Int(r.value, r.rest + more) else Overflow
    decreases |data|
  {
    if data != [] {
      assert (data + more)[1..] == data[1..] + more;
      if data[0] >= 128 && m + 7 < 63 {
        ContinuationExtend(data[1..], Wrap64(acc + ShiftLeft(Low7(data[0]), m)), m + 7, more);
      }
    }
  }

  /** Once decided, a result does not depend on the bytes still to come. */
  lemma {:induction false} DecIntegerExtend(data: seq<Byte>, n: nat, more: seq<Byte>)
    ensures var r := DecInteger(data, n);
      !r.NeedsMore? ==>
        DecInteger(data + more, n) == if r.Int? then Int(r.value, r.rest + more) else Overflow
  {
    if data != [] {
      assert (data + more)[1..] == data[1..] + more;
      ContinuationExtend(data[1..], Prefix(data[0], n), 0, more);
    }
  }

  lemma {:induction false} ContinuationShortest(s: seq<Byte>)
    requires s != []
    ensures |EncContinuation(Base128(s))| <= |s|
    decreases |s|
  {
    var low, tail := Low7(s[0]), s[1..];
    assert low < 128;
    if tail != [] {
      ContinuationShortest(tail);
      assert Base128(s) / 128 == Base128(tail);
    }
  }

  lemma {:induction false} ContinuationConsumes(data: seq<Byte>, acc: nat, m: nat)
    ensures var r := DecContinuation(data, acc, m); r.Int? ==> |r.rest| < |data|
    decreases |data|
  {
    if data != [] && data[0] >= 128 && m + 7 < 63 {
      ContinuationConsumes(data[1..], Wrap64(acc + ShiftLeft(Low7(data[0]), m)), m + 7);
    }
  }

  /** No byte string that the decoder reads as an integer is shorter than the encoder's. */
  lemma {:induction false} EncodingShortest(data: seq<Byte>, mask: Byte, n: nat)
    requires ValidPrefix(mask, n)
    ensures var r := DecInteger(data, n);
      r.Int? ==> |EncInteger(mask, n, r.value)| <= |data| - |r.rest|
  {
    DecIntegerMeaning(data, n);
    var r := DecInteger(data, n);
    if r.Int? && r.value >= Bound(n) {
      ContinuationConsumes(data[1..], Prefix(data[0], n), 0);
      PrefixBound(data[0], n);
      ContinuationShortest(data[1..|data| - |r.rest|]);
    }
  }
}
