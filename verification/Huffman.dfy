/** The Huffman code of HPACK (section 5.2 and appendix B of RFC 7541): the encoder that
    packs code words into bytes, the 256-ary trie, and the decoder that walks it.
    The code table is a parameter that satisfies GoodCodes. */
module Huffman {
  import opened Wrappers
  import opened Bits

  datatype Code = Code(code: nat, bits: nat)

  const EOS: nat := 256

  /** uint8(s) */
  function ByteOf(s: nat): (b: Byte) {
    s % 256
  }

  function Word(codes: seq<Code>, s: nat): (w: seq<bool>)
    requires s < |codes|
  {
    ToBits(codes[s].code, codes[s].bits)
  }

  ghost predicate HasWord(codes: seq<Code>, b: seq<bool>) {
    exists s :: 0 <= s < |codes| && Word(codes, s) <= b
  }

  ghost predicate PrefixFree(codes: seq<Code>) {
    forall s, t :: 0 <= s < |codes| && 0 <= t < |codes| && Word(codes, s) <= Word(codes, t) ==> s == t
  }

  ghost predicate Complete(codes: seq<Code>) {
    forall b: seq<bool> :: |b| >= 30 ==> HasWord(codes, b)
  }

  predicate WellSized(codes: seq<Code>) {
    && |codes| == 257
    && forall s :: 0 <= s < 257 ==> 5 <= codes[s].bits <= 30 && codes[s].code < Pow2(codes[s].bits)
  }

  predicate AllOnes(c: Code) {
    c.code == Pow2(c.bits) - 1
  }

  /** 256 symbols and EOS, code words of 5 to 30 bits, none a prefix of another, every long
      bit string starting with one, and EOS all ones. */
  ghost predicate GoodCodes(codes: seq<Code>) {
    && WellSized(codes)
    && PrefixFree(codes)
    && Complete(codes)
    && AllOnes(codes[EOS])
    && codes[EOS].bits == 30
  }

  lemma {:induction false} Comparable<T>(a: seq<T>, b: seq<T>, c: seq<T>)
    requires a <= c && b <= c
    ensures a <= b || b <= a
  {
    if |a| <= |b| {
      assert a == c[..|a|] && b == c[..|b|];
    }
  }

  /** Two code words that start the same bit string are the same. */
  lemma {:induction false} WordUnique(codes: seq<Code>, s: nat, t: nat, b: seq<bool>)
    requires WellSized(codes) && PrefixFree(codes) && s < 257 && t < 257
    requires Word(codes, s) <= b && Word(codes, t) <= b
    ensures s == t
  {
    Comparable(Word(codes, s), Word(codes, t), b);
  }

  // ----- Reference decoder: one code word after another, bit by bit

  /** Strips code words off the front while there is one; EOS counts as byte 0 and a
      trailing incomplete code word is dropped. */
  ghost function DecodeBits(codes: seq<Code>, b: seq<bool>): (r: seq<Byte>)
    requires WellSized(codes)
    decreases |b|
  {
    if !HasWord(codes, b) then []
    else
      var s :| 0 <= s < |codes| && Word(codes, s) <= b;
      [ByteOf(s)] + DecodeBits(codes, b[codes[s].bits..])
  }

  lemma {:induction false} DecodeWord(codes: seq<Code>, s: nat, rest: seq<bool>)
    requires WellSized(codes) && PrefixFree(codes) && s < 257
    ensures DecodeBits(codes, Word(codes, s) + rest) == [ByteOf(s)] + DecodeBits(codes, rest)
  {
    var b := Word(codes, s) + rest;
    assert HasWord(codes, b);
    var t :| 0 <= t < |codes| && Word(codes, t) <= b &&
      DecodeBits(codes, b) == [ByteOf(t)] + DecodeBits(codes, b[codes[t].bits..]);
    WordUnique(codes, s, t, b);
    assert b[codes[s].bits..] == rest;
  }

  // ----- Encoder

  function CodeBits(codes: seq<Code>, s: seq<Byte>): (b: seq<bool>)
    requires WellSized(codes)
  {
    if s == [] then [] else CodeBits(codes, s[..|s| - 1]) + Word(codes, s[|s| - 1])
  }

  function Padding(n: nat): (p: nat)
    ensures p < 8 && (n + p) % 8 == 0
  {
    if n % 8 == 0 then 0 else 8 - n % 8
  }

  /** The code words in order, then one bits up to the next byte boundary. */
  function Encoded(codes: seq<Code>, s: seq<Byte>): (r: seq<Byte>)
    requires WellSized(codes)
  {
    var b := CodeBits(codes, s);
    Pack(b + Repeat(true, Padding(|b|)))
  }

  lemma {:induction false} DecodeCodeBits(codes: seq<Code>, s: seq<Byte>, rest: seq<bool>)
    requires WellSized(codes) && PrefixFree(codes)
    ensures DecodeBits(codes, CodeBits(codes, s) + rest) == s + DecodeBits(codes, rest)
  {
    if s == [] {
      assert CodeBits(codes, s) + rest == rest;
    } else {
      var front, last := s[..|s| - 1], s[|s| - 1];
      assert ByteOf(last) == last && s == front + [last];
      var w := Word(codes, last);
      Assoc(CodeBits(codes, front), w, rest);
      var tail := DecodeBits(codes, rest);
      Assoc(front, [last], tail);
      DecodeWord(codes, last, rest);
      DecodeCodeBits(codes, front, w + rest);
    }
  }

  /** Fewer than thirty one bits are a proper prefix of EOS and yield no symbol. */
  lemma {:induction false} PaddingDecodesToNothing(codes: seq<Code>, n: nat)
    requires GoodCodes(codes) && n < 30
    ensures DecodeBits(codes, Repeat(true, n)) == []
  {
    ToBitsOnes(codes[EOS].bits);
    assert Repeat(true, n) <= Word(codes, EOS);
  }

  /** Decoding what the encoder writes gives the string back. */
  lemma {:induction false} RoundTrip(codes: seq<Code>, s: seq<Byte>)
    requires GoodCodes(codes)
    ensures DecodeBits(codes, BitsOf(Encoded(codes, s))) == s
  {
    var b := CodeBits(codes, s);
    var pad := Repeat(true, Padding(|b|));
    BitsOfPack(b + pad);
    DecodeCodeBits(codes, s, pad);
    PaddingDecodesToNothing(codes, |pad|);
  }

  /** Writes t into the free low bits of the last byte. */
  method OrLast(a: seq<Byte>, t: Byte, space: nat, ghost done: seq<bool>) returns (r: seq<Byte>)
    requires a != [] && 1 <= space <= 8 && t < Pow2(space)
    requires BitsOf(a) == done + Repeat(false, space)
    ensures BitsOf(r) == done + ToBits(t, space) && |r| == |a|
  {
    var n := |a| - 1;
    var x := a[n];
    OrByte(x, t);
    var y: Byte := BitOr(x, t);
    r := a[..n] + [y];
    BitsOfAppend(a[..n], y);
    assert BitsOf(a) == BitsOf(a[..n]) + ToBits(x, 8);
    LastOctet(BitsOf(a[..n]), ToBits(x, 8), done, space);
    OrOctet(x, t, space);
    Assoc(BitsOf(a[..n]), ToBits(x, 8)[..8 - space], ToBits(t, space));
  }

  lemma {:induction false} OrByte(x: Byte, y: Byte)
    ensures BitOr(x, y) < 256
  {
    assert Pow2(8) == 256;
    BitOrBound(x, y, 8);
  }

  /** The free bits are the end of the last octet. */
  lemma {:induction false} LastOctet(front: seq<bool>, octet: seq<bool>, done: seq<bool>, space: nat)
    requires |octet| == 8 && space <= 8 && front + octet == done + Repeat(false, space)
    ensures octet[8 - space..] == Repeat(false, space) && done == front + octet[..8 - space]
  {
    var all := front + octet;
    var k := |done|;
    assert k == |front| + (8 - space);
    assert all[..k] == done && all[k..] == Repeat(false, space);
    assert all[..k] == front + octet[..8 - space] && all[k..] == octet[8 - space..];
  }

  lemma {:induction false} OrOctet(x: Byte, t: Byte, space: nat)
    requires space <= 8 && t < Pow2(space)
    ensures ToBits(x, 8)[8 - space..] == Repeat(false, space) ==>
      ToBits(BitOr(x, t), 8) == ToBits(x, 8)[..8 - space] + ToBits(t, space)
  {
    ToBitsSmall(t, 8 - space, space);
    var bx, bt, bz := ToBits(x, 8), ToBits(t, 8), ToBits(BitOr(x, t), 8);
    if bx[8 - space..] == Repeat(false, space) {
      forall i | 0 <= i < 8 ensures bz[i] == (bx[..8 - space] + ToBits(t, space))[i] {
        ToBitsOr(x, t, 8, i);
        if i >= 8 - space { assert bx[i] == bx[8 - space..][i - (8 - space)]; }
      }
    }
  }

  /** Appends the code word of one symbol to a buffer whose last byte has `space` free bits. */
  method EncodeSymbol(codes: seq<Code>, a: seq<Byte>, free: nat, sym: nat, ghost done: seq<bool>)
    returns (r: seq<Byte>, space: nat)
    requires WellSized(codes) && sym < 257
    requires a != [] && 1 <= free <= 8 && BitsOf(a) == done + Repeat(false, free)
    ensures r != [] && 1 <= space <= 8
    ensures BitsOf(r) == done + Word(codes, sym) + Repeat(false, if space == 8 then 0 else space)
  {
    r, space := a, free;
    var huff := codes[sym];
    var nbits := huff.bits;
    ghost var w := Word(codes, sym);
    assert done + w[..0] == done;
    while true
      invariant r != [] && 1 <= space <= 8 && 1 <= nbits <= huff.bits
      invariant nbits == huff.bits || space == 8
      invariant BitsOf(r) == done + w[..huff.bits - nbits] + Repeat(false, space)
      decreases nbits
    {
      if space > nbits {
        r := PutLast(huff, r, nbits, space, done);
        space := space - nbits;
        return;
      }
      r := PutPiece(huff, r, nbits, space, done);
      nbits := nbits - space;
      space := 8;
      if nbits == 0 {
        assert w[..huff.bits] == w;
        return;
      }
      r := AppendZero(r);
    }
  }

  /** The rest of a code word fits into the last byte and leaves room. */
  method PutLast(huff: Code, a: seq<Byte>, nbits: nat, space: nat, ghost done: seq<bool>) returns (r: seq<Byte>)
    requires huff.code < Pow2(huff.bits) && 1 <= nbits < space <= 8 && nbits <= huff.bits
    requires nbits == huff.bits || space == 8
    requires a != [] && BitsOf(a) == done + ToBits(huff.code, huff.bits)[..huff.bits - nbits] + Repeat(false, space)
    ensures |r| == |a| && BitsOf(r) == done + ToBits(huff.code, huff.bits) + Repeat(false, space - nbits)
  {
    ghost var w, k := ToBits(huff.code, huff.bits), huff.bits - nbits;
    var t: Byte := ShiftLeft(huff.code, space - nbits) % 256;
    LastPiece(huff, nbits, space);
    AppendLast(done, w, k, Repeat(false, space - nbits));
    r := OrLast(a, t, space, done + w[..k]);
  }

  /** The next bits of a code word fill the last byte. */
  method PutPiece(huff: Code, a: seq<Byte>, nbits: nat, space: nat, ghost done: seq<bool>) returns (r: seq<Byte>)
    requires huff.code < Pow2(huff.bits) && 1 <= space <= 8 && space <= nbits <= huff.bits
    requires nbits == huff.bits || space == 8
    requires a != [] && BitsOf(a) == done + ToBits(huff.code, huff.bits)[..huff.bits - nbits] + Repeat(false, space)
    ensures |r| == |a| && BitsOf(r) == done + ToBits(huff.code, huff.bits)[..huff.bits - nbits + space]
  {
    ghost var w, k := ToBits(huff.code, huff.bits), huff.bits - nbits;
    var t: Byte := ShiftRight(huff.code, nbits - space) % 256;
    FullPiece(huff, nbits, space);
    AppendSlice(done, w, k, space);
    r := OrLast(a, t, space, done + w[..k]);
  }

  method AppendZero(a: seq<Byte>) returns (r: seq<Byte>)
    ensures |r| == |a| + 1 && BitsOf(r) == BitsOf(a) + Repeat(false, 8)
  {
    BitsOfAppend(a, 0);
    ToBitsZero(8);
    r := a + [0];
  }

  lemma {:induction false} AppendSlice(done: seq<bool>, w: seq<bool>, k: nat, n: nat)
    requires k + n <= |w|
    ensures done + w[..k] + w[k..k + n] == done + w[..k + n]
  {
    assert w[..k] + w[k..k + n] == w[..k + n];
  }

  lemma {:induction false} AppendLast(done: seq<bool>, w: seq<bool>, k: nat, zeros: seq<bool>)
    requires k <= |w|
    ensures done + w[..k] + (w[k..] + zeros) == done + w + zeros
  {
    assert w[..k] + w[k..] == w;
  }

  lemma {:induction false} LastPiece(huff: Code, nbits: nat, space: nat)
    requires huff.code < Pow2(huff.bits) && 1 <= nbits < space <= 8 && nbits <= huff.bits
    requires nbits == huff.bits || space == 8
    ensures var t := ShiftLeft(huff.code, space - nbits) % 256;
      t < Pow2(space) &&
      ToBits(t, space) == ToBits(huff.code, huff.bits)[huff.bits - nbits..] + Repeat(false, space - nbits)
  {
    LastPieceBound(huff, nbits, space);
    WordEnd(huff.code, huff.bits - nbits, nbits);
    ShiftedWord(huff.code, nbits, space - nbits);
    ToBitsOfByte(ShiftLeft(huff.code, space - nbits), space);
  }

  lemma {:induction false} WordEnd(x: nat, a: nat, b: nat)
    ensures ToBits(x, a + b)[a..] == ToBits(x, b)
  {
    ToBitsSplit(x, a, b);
  }

  lemma {:induction false} ShiftedWord(x: nat, n: nat, gap: nat)
    ensures ToBits(ShiftLeft(x, gap), n + gap) == ToBits(x, n) + Repeat(false, gap)
  {
    ToBitsAppend(x, n, 0, gap);
    ToBitsZero(gap);
  }

  lemma {:induction false} LastPieceBound(huff: Code, nbits: nat, space: nat)
    requires huff.code < Pow2(huff.bits) && 1 <= nbits < space <= 8 && nbits <= huff.bits
    requires nbits == huff.bits || space == 8
    ensures ShiftLeft(huff.code, space - nbits) % 256 < Pow2(space)
  {
    assert Pow2(8) == 256;
    if space != 8 {
      ShiftLeftBound(huff.code, 0, nbits, space - nbits);
      Pow2Monotone(space, 8);
    }
  }

  lemma {:induction false} FullPiece(huff: Code, nbits: nat, space: nat)
    requires huff.code < Pow2(huff.bits) && 1 <= space <= 8 && space <= nbits <= huff.bits
    requires nbits == huff.bits || space == 8
    ensures var t := ShiftRight(huff.code, nbits - space) % 256;
      var done := huff.bits - nbits;
      t < Pow2(space) && ToBits(t, space) == ToBits(huff.code, huff.bits)[done..done + space]
  {
    FullPieceBound(huff, nbits, space);
    ToBitsOfByte(ShiftRight(huff.code, nbits - space), space);
    SliceOfWord(huff.code, huff.bits - nbits, space, nbits - space);
  }

  lemma {:induction false} FullPieceBound(huff: Code, nbits: nat, space: nat)
    requires huff.code < Pow2(huff.bits) && 1 <= space <= 8 && space <= nbits <= huff.bits
    requires nbits == huff.bits || space == 8
    ensures ShiftRight(huff.code, nbits - space) % 256 < Pow2(space)
  {
    assert Pow2(8) == 256;
    if space != 8 {
      ShiftRightBound(huff.code, space, nbits - space);
      Pow2Monotone(space, 8);
    }
  }

  lemma {:induction false} SliceOfWord(x: nat, a: nat, b: nat, c: nat)
    ensures ToBits(x, a + b + c)[a..a + b] == ToBits(ShiftRight(x, c), b)
  {
    ToBitsSplit(x, a + b, c);
    ToBitsSplit(ShiftRight(x, c), a, b);
  }

  method HuffmanEncode(codes: seq<Code>, dst: seq<Byte>, s: seq<Byte>) returns (r: seq<Byte>)
    requires WellSized(codes) && AllOnes(codes[EOS]) && codes[EOS].bits == 30
    ensures r == dst + Encoded(codes, s)
  {
    r := dst;
    var space: nat := 8;
    ghost var base := BitsOf(dst);
    for i := 0 to |s|
      invariant 1 <= space <= 8 && (space < 8 ==> r != [])
      invariant BitsOf(r) == base + CodeBits(codes, s[..i]) + Repeat(false, if space == 8 then 0 else space)
    {
      ghost var done := base + CodeBits(codes, s[..i]);
      if space == 8 {
        r := AppendZero(r);
      }
      r, space := EncodeSymbol(codes, r, space, s[i], done);
      CodeBitsStep(codes, s, i, base);
    }
    assert s[..|s|] == s;
    ghost var b := CodeBits(codes, s);
    if space < 8 {
      var eos := codes[EOS];
      var t: Byte := ShiftRight(eos.code, eos.bits - space) % 256;
      PaddingPiece(eos, space);
      r := OrLast(r, t, space, base + b);
      PaddedBits(codes, dst, s, r, space);
    } else {
      PaddedBits(codes, dst, s, r, 0);
    }
  }

  lemma {:induction false} PaddingPiece(eos: Code, space: nat)
    requires AllOnes(eos) && 1 <= space < 8 <= eos.bits
    ensures var t := ShiftRight(eos.code, eos.bits - space) % 256;
      t < Pow2(space) && ToBits(t, space) == Repeat(true, space)
  {
    assert Repeat(true, eos.bits)[0..space] == Repeat(true, space);
    ToBitsOnes(eos.bits);
    FullPiece(eos, eos.bits, space);
  }

  lemma {:induction false} CodeBitsStep(codes: seq<Code>, s: seq<Byte>, i: nat, base: seq<bool>)
    requires WellSized(codes) && i < |s|
    ensures base + CodeBits(codes, s[..i]) + Word(codes, s[i]) == base + CodeBits(codes, s[..i + 1])
  {
    assert s[..i + 1][..i] == s[..i];
    Assoc(base, CodeBits(codes, s[..i]), Word(codes, s[i]));
  }

  lemma {:induction false} PaddingUnique(n: nat, pad: nat, bytes: int)
    requires pad < 8 && n + pad == 8 * bytes
    ensures pad == Padding(n)
  {
  }

  lemma {:induction false} PaddedBits(codes: seq<Code>, dst: seq<Byte>, s: seq<Byte>, r: seq<Byte>, pad: nat)
    requires WellSized(codes) && pad < 8
    requires BitsOf(r) == BitsOf(dst) + CodeBits(codes, s) + Repeat(true, pad)
    ensures r == dst + Encoded(codes, s)
  {
    var b := CodeBits(codes, s);
    PaddingUnique(|b|, pad, |r| - |dst|);
    Assoc(BitsOf(dst), b, Repeat(true, pad));
    BitsOfPack(b + Repeat(true, pad));
    BitsOfConcat(dst, Encoded(codes, s));
    BitsOfInjective(r, dst + Encoded(codes, s));
  }

  method HuffmanEncodedLen(codes: seq<Code>, s: seq<Byte>) returns (n: nat)
    requires WellSized(codes)
    ensures n == |Encoded(codes, s)|
  {
    var x: nat := 0;
    for i := 0 to |s|
      invariant x == |CodeBits(codes, s[..i])|
    {
      x := x + codes[s[i]].bits;
      assert s[..i + 1][..i] == s[..i];
    }
    assert s[..|s|] == s;
    n := (x + 7) / 8;
    BitsOfPack(CodeBits(codes, s) + Repeat(true, Padding(x)));
  }
}
