/** Bytes, powers of two and the most-significant-bit-first bit strings that the
    HPACK codecs read and write. Shifts and masks of the source are division,
    remainder and multiplication by powers of two. */
module Bits {
  import opened Wrappers

  type Byte = x: int | 0 <= x < 256

  /** x << m */
  function ShiftLeft(x: nat, m: nat): (y: nat)
    decreases m
  {
    if m == 0 then x else 2 * ShiftLeft(x, m - 1)
  }

  /** x >> m */
  function ShiftRight(x: nat, m: nat): (y: nat)
    decreases m
  {
    if m == 0 then x else ShiftRight(x / 2, m - 1)
  }

  function Pow2(m: nat): (p: nat)
    ensures p >= 1
  {
    if m == 0 then 1 else 2 * Pow2(m - 1)
  }

  lemma {:induction false} ShiftLeftOne(m: nat)
    ensures ShiftLeft(1, m) == Pow2(m)
  {
    if m > 0 { ShiftLeftOne(m - 1); }
  }

  lemma {:induction false} ShiftLeftAdd(x: nat, y: nat, m: nat)
    ensures ShiftLeft(x + y, m) == ShiftLeft(x, m) + ShiftLeft(y, m)
  {
    if m > 0 { ShiftLeftAdd(x, y, m - 1); }
  }

  lemma {:induction false} ShiftLeftTwice(x: nat, a: nat, b: nat)
    ensures ShiftLeft(ShiftLeft(x, a), b) == ShiftLeft(x, a + b)
  {
    if b > 0 { ShiftLeftTwice(x, a, b - 1); }
  }

  lemma {:induction false} ShiftLeftMonotone(x: nat, y: nat, m: nat)
    requires x <= y
    ensures ShiftLeft(x, m) <= ShiftLeft(y, m)
  {
    if m > 0 { ShiftLeftMonotone(x, y, m - 1); }
  }

  lemma {:induction false} Pow2Monotone(a: nat, b: nat)
    requires a <= b
    ensures Pow2(a) <= Pow2(b)
  {
    if a < b { Pow2Monotone(a, b - 1); }
  }

  /** What a shift right drops is the remainder. */
  lemma {:induction false} ShiftLeftRight(x: nat, y: nat, m: nat)
    requires y < Pow2(m)
    ensures ShiftRight(ShiftLeft(x, m) + y, m) == x
  {
    if m > 0 {
      ShiftLeftRight(x, y / 2, m - 1);
      assert (ShiftLeft(x, m) + y) / 2 == ShiftLeft(x, m - 1) + y / 2;
    }
  }

  lemma {:induction false} ShiftRightBound(x: nat, a: nat, b: nat)
    requires x < Pow2(a + b)
    ensures ShiftRight(x, b) < Pow2(a)
  {
    if b > 0 { ShiftRightBound(x / 2, a, b - 1); }
  }

  /** The low n bits of x, most significant first. */
  function ToBits(x: nat, n: nat): (b: seq<bool>)
    ensures |b| == n
  {
    if n == 0 then [] else ToBits(x / 2, n - 1) + [x % 2 == 1]
  }

  function FromBits(b: seq<bool>): (x: nat)
  {
    if b == [] then 0 else 2 * FromBits(b[..|b| - 1]) + (if b[|b| - 1] then 1 else 0)
  }

  lemma {:induction false} FromBitsBound(b: seq<bool>)
    ensures FromBits(b) < Pow2(|b|)
  {
    if b != [] { FromBitsBound(b[..|b| - 1]); }
  }

  lemma {:induction false} ToFromBits(b: seq<bool>)
    ensures ToBits(FromBits(b), |b|) == b
  {
    if b != [] {
      var front := b[..|b| - 1];
      ToFromBits(front);
      assert FromBits(b) / 2 == FromBits(front);
      assert b == front + [b[|b| - 1]];
    }
  }

  lemma {:induction false} FromToBits(x: nat, n: nat)
    requires x < Pow2(n)
    ensures FromBits(ToBits(x, n)) == x
  {
    if n > 0 {
      FromToBits(x / 2, n - 1);
      assert ToBits(x, n)[..n - 1] == ToBits(x / 2, n - 1);
    }
  }

  lemma {:induction false} ToBitsInjective(x: nat, y: nat, n: nat)
    requires x < Pow2(n) && y < Pow2(n)
    requires ToBits(x, n) == ToBits(y, n)
    ensures x == y
  {
    FromToBits(x, n);
    FromToBits(y, n);
  }

  /** Splitting a word: the high a bits, then the low b bits. */
  lemma {:induction false} ToBitsSplit(x: nat, a: nat, b: nat)
    ensures ToBits(x, a + b) == ToBits(ShiftRight(x, b), a) + ToBits(x, b)
  {
    if b > 0 { ToBitsSplit(x / 2, a, b - 1); }
  }

  /** Shifting left by b and filling the gap with a b-bit value appends its bits. */
  lemma {:induction false} ToBitsAppend(x: nat, a: nat, y: nat, b: nat)
    requires y < Pow2(b)
    ensures ToBits(ShiftLeft(x, b) + y, a + b) == ToBits(x, a) + ToBits(y, b)
  {
    if b > 0 {
      ToBitsAppend(x, a, y / 2, b - 1);
      assert (ShiftLeft(x, b) + y) / 2 == ShiftLeft(x, b - 1) + y / 2;
    }
  }

  /** Multiples of 2^m do not show in the low n <= m bits. */
  lemma {:induction false} ToBitsLow(q: nat, r: nat, n: nat, m: nat)
    requires n <= m
    ensures ToBits(ShiftLeft(q, m) + r, n) == ToBits(r, n)
  {
    if n > 0 {
      ToBitsLow(q, r / 2, n - 1, m - 1);
      assert (ShiftLeft(q, m) + r) / 2 == ShiftLeft(q, m - 1) + r / 2;
    }
  }

  /** uint8(x) keeps the low eight bits. */
  lemma {:induction false} ToBitsOfByte(x: nat, n: nat)
    requires n <= 8
    ensures ToBits(x % 256, n) == ToBits(x, n)
  {
    assert ShiftLeft(x / 256, 8) == 256 * (x / 256);
    ToBitsLow(x / 256, x % 256, n, 8);
  }

  function Repeat(bit: bool, n: nat): (b: seq<bool>)
    ensures |b| == n
    ensures forall i :: 0 <= i < n ==> b[i] == bit
  {
    seq(n, _ => bit)
  }

  lemma {:induction false} ToBitsOnes(n: nat)
    ensures ToBits(Pow2(n) - 1, n) == Repeat(true, n)
  {
    if n > 0 {
      ToBitsOnes(n - 1);
      assert (Pow2(n) - 1) / 2 == Pow2(n - 1) - 1;
    }
  }

  lemma {:induction false} ToBitsZero(n: nat)
    ensures ToBits(0, n) == Repeat(false, n)
  {
    if n > 0 { ToBitsZero(n - 1); }
  }

  /** A value that needs only b bits has zeros above them. */
  lemma {:induction false} ToBitsSmall(y: nat, a: nat, b: nat)
    requires y < Pow2(b)
    ensures ToBits(y, a + b) == Repeat(false, a) + ToBits(y, b)
  {
    ShiftLeftZero(b);
    ToBitsAppend(0, a, y, b);
    ToBitsZero(a);
  }

  lemma {:induction false} ShiftLeftZero(m: nat)
    ensures ShiftLeft(0, m) == 0
  {
    if m > 0 { ShiftLeftZero(m - 1); }
  }

  lemma {:induction false} ShiftLeftBound(x: nat, y: nat, a: nat, b: nat)
    requires x < Pow2(a) && y < Pow2(b)
    ensures ShiftLeft(x, b) + y < Pow2(a + b)
  {
    ShiftLeftAdd(x, 1, b);
    ShiftLeftOne(b);
    ShiftLeftMonotone(x + 1, Pow2(a), b);
    ShiftLeftOne(a);
    ShiftLeftTwice(1, a, b);
    ShiftLeftOne(a + b);
  }

  /** The values whose first bits are those of c form one aligned interval. */
  lemma {:induction false} Aligned(c: nat, bits: nat, shift: nat, v: nat)
    requires c < Pow2(bits) && v < Pow2(bits + shift)
    ensures var start := ShiftLeft(c, shift);
      start <= v < start + Pow2(shift) <==> ToBits(v, bits + shift)[..bits] == ToBits(c, bits)
  {
    var start := ShiftLeft(c, shift);
    if start <= v < start + Pow2(shift) {
      ToBitsAppend(c, bits, v - start, shift);
    }
    if ToBits(v, bits + shift)[..bits] == ToBits(c, bits) {
      AlignedConverse(c, bits, shift, v);
    }
  }

  lemma {:induction false} AlignedConverse(c: nat, bits: nat, shift: nat, v: nat)
    requires c < Pow2(bits) && v < Pow2(bits + shift) && ToBits(v, bits + shift)[..bits] == ToBits(c, bits)
    ensures ShiftLeft(c, shift) <= v < ShiftLeft(c, shift) + Pow2(shift)
  {
    var y := LowValue(c, bits, shift, ToBits(v, bits + shift));
    ShiftLeftBound(c, y, bits, shift);
    ToBitsInjective(v, ShiftLeft(c, shift) + y, bits + shift);
  }

  lemma {:induction false} LowValue(c: nat, bits: nat, shift: nat, w: seq<bool>) returns (y: nat)
    requires |w| == bits + shift && w[..bits] == ToBits(c, bits)
    ensures y < Pow2(shift) && w == ToBits(ShiftLeft(c, shift) + y, bits + shift)
  {
    var low := w[bits..];
    assert w == w[..bits] + low;
    y := FromBits(low);
    FromBitsBound(low);
    ToFromBits(low);
    ToBitsAppend(c, bits, y, shift);
  }

  /** x | y */
  function BitOr(x: nat, y: nat): (z: nat)
    decreases x + y
  {
    if x == 0 && y == 0 then 0
    else 2 * BitOr(x / 2, y / 2) + (if x % 2 == 1 || y % 2 == 1 then 1 else 0)
  }

  lemma {:induction false} BitOrBound(x: nat, y: nat, n: nat)
    requires x < Pow2(n) && y < Pow2(n)
    ensures BitOr(x, y) < Pow2(n)
  {
    if n > 0 { BitOrBound(x / 2, y / 2, n - 1); }
  }

  /** Or acts on each bit. */
  lemma {:induction false} ToBitsOr(x: nat, y: nat, n: nat, i: nat)
    requires i < n
    ensures ToBits(BitOr(x, y), n)[i] == (ToBits(x, n)[i] || ToBits(y, n)[i])
  {
    var z := BitOr(x, y);
    assert z / 2 == BitOr(x / 2, y / 2) && (z % 2 == 1) == (x % 2 == 1 || y % 2 == 1);
    if i < n - 1 { ToBitsOr(x / 2, y / 2, n - 1, i); }
  }

  /** The bits of a byte string, in transmission order. */
  function BitsOf(s: seq<Byte>): (b: seq<bool>)
    ensures |b| == 8 * |s|
  {
    if s == [] then [] else BitsOf(s[..|s| - 1]) + ToBits(s[|s| - 1], 8)
  }

  lemma {:induction false} BitsOfAppend(s: seq<Byte>, b: Byte)
    ensures BitsOf(s + [b]) == BitsOf(s) + ToBits(b, 8)
  {
    assert (s + [b])[..|s|] == s;
  }

  lemma {:induction false} BitsOfConcat(s: seq<Byte>, t: seq<Byte>)
    ensures BitsOf(s + t) == BitsOf(s) + BitsOf(t)
  {
    if t == [] {
      assert s + t == s;
    } else {
      var front, last := t[..|t| - 1], t[|t| - 1];
      BitsOfConcat(s, front);
      assert t == front + [last];
      assert s + t == s + front + [last];
      BitsOfAppend(s + front, last);
      BitsOfAppend(front, last);
      Assoc(BitsOf(s), BitsOf(front), ToBits(last, 8));
    }
  }

  /** The byte string with the given bits. */
  function Pack(b: seq<bool>): (s: seq<Byte>)
    requires |b| % 8 == 0
  {
    if b == [] then [] else Pack(b[..|b| - 8]) + [FromOctet(b[|b| - 8..])]
  }

  function FromOctet(b: seq<bool>): (x: Byte)
    requires |b| == 8
    ensures ToBits(x, 8) == b
  {
    FromBitsBound(b);
    assert Pow2(8) == 256;
    ToFromBits(b);
    FromBits(b)
  }

  lemma {:induction false} BitsOfPack(b: seq<bool>)
    requires |b| % 8 == 0
    ensures BitsOf(Pack(b)) == b
  {
    if b != [] {
      var n := |b| - 8;
      BitsOfPack(b[..n]);
      BitsOfAppend(Pack(b[..n]), FromOctet(b[n..]));
      assert b == b[..n] + b[n..];
    }
  }

  lemma {:induction false} BitsOfInjective(s: seq<Byte>, t: seq<Byte>)
    requires BitsOf(s) == BitsOf(t)
    ensures s == t
  {
    if s != [] {
      var fs, ft := s[..|s| - 1], t[..|t| - 1];
      var x, y := s[|s| - 1], t[|t| - 1];
      assert BitsOf(s)[..8 * |fs|] == BitsOf(fs) && BitsOf(t)[..8 * |ft|] == BitsOf(ft);
      BitsOfInjective(fs, ft);
      assert BitsOf(s)[8 * |fs|..] == ToBits(x, 8) && BitsOf(t)[8 * |ft|..] == ToBits(y, 8);
      assert Pow2(8) == 256;
      ToBitsInjective(x, y, 8);
      assert s == fs + [x] && t == ft + [y];
    }
  }
}
