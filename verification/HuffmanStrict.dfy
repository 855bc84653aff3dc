/** The decoder is more lenient than section 5.2 of RFC 7541 allows: it takes EOS for a zero byte and any
    bits for padding. Here is what it does on exactly the inputs that the standard allows. */
module HuffmanStrict {
  import opened Wrappers
  import opened Bits
  import opened Huffman
  import opened HuffmanTable

  /** The code words at the front, one after another, EOS included. */
  ghost function Symbols(codes: seq<Code>, b: seq<bool>): (r: seq<nat>)
    requires WellSized(codes)
    decreases |b|
  {
    if !HasWord(codes, b) then []
    else
      var s :| 0 <= s < |codes| && Word(codes, s) <= b;
      [s] + Symbols(codes, b[codes[s].bits..])
  }

  /** The bits behind them. */
  ghost function Remainder(codes: seq<Code>, b: seq<bool>): (r: seq<bool>)
    requires WellSized(codes)
    decreases |b|
  {
    if !HasWord(codes, b) then b
    else
      var s :| 0 <= s < |codes| && Word(codes, s) <= b;
      Remainder(codes, b[codes[s].bits..])
  }

  /** No EOS, and fewer than eight bits of padding, all ones. */
  ghost predicate Conforms(codes: seq<Code>, b: seq<bool>)
    requires WellSized(codes)
  {
    && EOS !in Symbols(codes, b)
    && |Remainder(codes, b)| < 8 && Remainder(codes, b) == Repeat(true, |Remainder(codes, b)|)
  }

  lemma {:induction false} StripWord(codes: seq<Code>, s: nat, rest: seq<bool>)
    requires WellSized(codes) && PrefixFree(codes) && s < 257
    ensures Symbols(codes, Word(codes, s) + rest) == [s] + Symbols(codes, rest)
    ensures Remainder(codes, Word(codes, s) + rest) == Remainder(codes, rest)
  {
    StripSymbol(codes, s, rest);
    StripRemainder(codes, s, rest);
  }

  lemma {:induction false} StripSymbol(codes: seq<Code>, s: nat, rest: seq<bool>)
    requires WellSized(codes) && PrefixFree(codes) && s < 257
    ensures Symbols(codes, Word(codes, s) + rest) == [s] + Symbols(codes, rest)
  {
    var b := Word(codes, s) + rest;
    assert HasWord(codes, b);
    var t :| 0 <= t < |codes| && Word(codes, t) <= b &&
      Symbols(codes, b) == [t] + Symbols(codes, b[codes[t].bits..]);
    WordUnique(codes, s, t, b);
    assert b[codes[s].bits..] == rest;
  }

  lemma {:induction false} StripRemainder(codes: seq<Code>, s: nat, rest: seq<bool>)
    requires WellSized(codes) && PrefixFree(codes) && s < 257
    ensures Remainder(codes, Word(codes, s) + rest) == Remainder(codes, rest)
  {
    var b := Word(codes, s) + rest;
    assert HasWord(codes, b);
    var t :| 0 <= t < |codes| && Word(codes, t) <= b &&
      Remainder(codes, b) == Remainder(codes, b[codes[t].bits..]);
    WordUnique(codes, s, t, b);
    assert b[codes[s].bits..] == rest;
  }

  lemma {:induction false} CodeBitsFront(codes: seq<Code>, x: Byte, s: seq<Byte>)
    requires WellSized(codes)
    ensures CodeBits(codes, [x] + s) == Word(codes, x) + CodeBits(codes, s)
  {
    if s == [] {
      assert ([x] + s)[..0] == [] && CodeBits(codes, []) == [];
      assert [] + Word(codes, x) == Word(codes, x) == Word(codes, x) + [];
    } else {
      var n := |s| - 1;
      assert ([x] + s)[..n + 1] == [x] + s[..n];
      CodeBitsFront(codes, x, s[..n]);
      Assoc(Word(codes, x), CodeBits(codes, s[..n]), Word(codes, s[n]));
    }
  }

  /** Encoding what was decoded gives the code words back, unless EOS was among them. */
  lemma {:induction false} WordsBack(codes: seq<Code>, b: seq<bool>)
    requires WellSized(codes) && PrefixFree(codes) && EOS !in Symbols(codes, b)
    ensures b == CodeBits(codes, DecodeBits(codes, b)) + Remainder(codes, b)
    decreases |b|
  {
    if HasWord(codes, b) {
      var s :| 0 <= s < |codes| && Word(codes, s) <= b;
      var rest := b[codes[s].bits..];
      assert b == Word(codes, s) + rest;
      StripWord(codes, s, rest);
      DecodeWord(codes, s, rest);
      assert ([s] + Symbols(codes, rest))[0] == s;
      assert s != EOS && ByteOf(s) == s;
      WordsBack(codes, rest);
      CodeBitsFront(codes, s, DecodeBits(codes, rest));
      Assoc(Word(codes, s), CodeBits(codes, DecodeBits(codes, rest)), Remainder(codes, rest));
    } else {
      assert CodeBits(codes, []) == [] && [] + b == b;
    }
  }

  lemma {:induction false} EncodedStrips(codes: seq<Code>, s: seq<Byte>, pad: seq<bool>)
    requires WellSized(codes) && PrefixFree(codes) && !HasWord(codes, pad)
    ensures var b := CodeBits(codes, s) + pad; EOS !in Symbols(codes, b) && Remainder(codes, b) == pad
    decreases |s|
  {
    if s == [] {
      assert CodeBits(codes, s) + pad == pad;
    } else {
      var x, tail := s[0], s[1..];
      assert s == [x] + tail;
      CodeBitsFront(codes, x, tail);
      Assoc(Word(codes, x), CodeBits(codes, tail), pad);
      EncodedStrips(codes, tail, pad);
      StripWord(codes, x, CodeBits(codes, tail) + pad);
    }
  }

  lemma {:induction false} OnesHaveNoWord(codes: seq<Code>, n: nat)
    requires GoodCodes(codes) && n < 8
    ensures !HasWord(codes, Repeat(true, n))
  {
    ToBitsOnes(codes[EOS].bits);
    var ones := Repeat(true, n);
    assert ones <= Word(codes, EOS);
  }

  /** A byte string is the encoding of some string if and only if its bits conform to the standard; the
      decoder then returns that string. */
  lemma {:induction false} ConformsIff(codes: seq<Code>, src: seq<Byte>)
    requires GoodCodes(codes)
    ensures Conforms(codes, BitsOf(src)) <==> exists s :: Encoded(codes, s) == src
    ensures forall s :: Encoded(codes, s) == src ==> DecodeBits(codes, BitsOf(src)) == s
  {
    if Conforms(codes, BitsOf(src)) { ConformingEncodes(codes, src); }
    forall s | Encoded(codes, s) == src
      ensures Conforms(codes, BitsOf(src)) && DecodeBits(codes, BitsOf(src)) == s
    {
      EncodedConforms(codes, s);
      RoundTrip(codes, s);
    }
  }

  lemma {:induction false} EncodedConforms(codes: seq<Code>, s: seq<Byte>)
    requires GoodCodes(codes)
    ensures Conforms(codes, BitsOf(Encoded(codes, s)))
  {
    var b := CodeBits(codes, s);
    var pad := Repeat(true, Padding(|b|));
    BitsOfPack(b + pad);
    OnesHaveNoWord(codes, |pad|);
    EncodedStrips(codes, s, pad);
  }

  lemma {:induction false} ConformingEncodes(codes: seq<Code>, src: seq<Byte>)
    requires GoodCodes(codes) && Conforms(codes, BitsOf(src))
    ensures Encoded(codes, DecodeBits(codes, BitsOf(src))) == src
  {
    var bits := BitsOf(src);
    WordsBack(codes, bits);
    PackedBack(codes, DecodeBits(codes, bits), |Remainder(codes, bits)|, src);
  }

  lemma {:induction false} PackedBack(codes: seq<Code>, s: seq<Byte>, p: nat, src: seq<Byte>)
    requires WellSized(codes) && p < 8 && BitsOf(src) == CodeBits(codes, s) + Repeat(true, p)
    ensures Encoded(codes, s) == src
  {
    var b := CodeBits(codes, s);
    assert |b| + p == 8 * |src|;
    SamePadding(|b|, p);
    BitsOfPack(BitsOf(src));
    BitsOfInjective(Pack(BitsOf(src)), src);
  }

  lemma {:induction false} SamePadding(n: nat, p: nat)
    requires p < 8 && (n + p) % 8 == 0
    ensures Padding(n) == p
  {
  }

  // ----- What the decoder accepts beyond that

  /** Four bytes of ones are EOS and two ones: the decoder returns a zero byte. */
  lemma {:induction false} EosAccepted(codes: seq<Code>)
    requires GoodCodes(codes)
    ensures var b := BitsOf([0xff, 0xff, 0xff, 0xff]); DecodeBits(codes, b) == [0] && !Conforms(codes, b)
  {
    FourOnesBytes();
    EosInOnes(codes);
  }

  lemma {:induction false} EosInOnes(codes: seq<Code>)
    requires GoodCodes(codes)
    ensures DecodeBits(codes, Repeat(true, 32)) == [0] && !Conforms(codes, Repeat(true, 32))
  {
    ToBitsOnes(30);
    var rest := Repeat(true, 2);
    assert Repeat(true, 32) == Word(codes, EOS) + rest;
    DecodeWord(codes, EOS, rest);
    PaddingDecodesToNothing(codes, 2);
    StripWord(codes, EOS, rest);
    assert ([EOS] + Symbols(codes, rest))[0] == EOS;
    assert [ByteOf(EOS)] + [] == [0];
  }

  lemma {:induction false} FourOnesBytes()
    ensures BitsOf([0xff, 0xff, 0xff, 0xff]) == Repeat(true, 32)
  {
    var s: seq<Byte> := [0xff];
    ToBitsOnes(8);
    assert Pow2(8) == 256;
    BitsOfAppend([], 0xff);
    assert [] + s == s;
    BitsOfConcat(s, s);
    BitsOfConcat(s + s, s + s);
    assert [0xff, 0xff, 0xff, 0xff] == s + s + (s + s);
  }

  lemma {:induction false} TooShort(codes: seq<Code>, b: seq<bool>)
    requires WellSized(codes) && |b| < 5
    ensures !HasWord(codes, b)
  {
  }

  /** One zero byte is "0" with three zero bits of padding; the encoder writes 0x07 for it. */
  lemma {:induction false} BadPaddingAccepted()
    ensures var codes := HuffmanCodes();
      WellSized(codes) && DecodeBits(codes, BitsOf([0x00])) == [48] && !Conforms(codes, BitsOf([0x00]))
  {
    TableIsGood();
    var codes := HuffmanCodes();
    ZeroByte();
    ZeroPadding(codes);
  }

  lemma {:induction false} ZeroByte()
    ensures BitsOf([0x00]) == Repeat(false, 8) && HuffmanCodes()[48] == Code(0, 5)
  {
    BitsOfAppend([], 0);
    ToBitsZero(8);
    assert [] + [0x00] == [0x00];
    assert BitsOf([]) + ToBits(0, 8) == ToBits(0, 8);
  }

  lemma {:induction false} ZeroPadding(codes: seq<Code>)
    requires GoodCodes(codes) && codes[48] == Code(0, 5)
    ensures DecodeBits(codes, Repeat(false, 8)) == [48] && !Conforms(codes, Repeat(false, 8))
  {
    ToBitsZero(5);
    var rest := Repeat(false, 3);
    assert Repeat(false, 8) == Word(codes, 48) + rest;
    TooShort(codes, rest);
    DecodeWord(codes, 48, rest);
    StripWord(codes, 48, rest);
    assert [ByteOf(48)] + [] == [48];
    assert rest[0] != Repeat(true, 3)[0];
  }
}
