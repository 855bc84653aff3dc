/** The code table of the HPACK Huffman code. It is canonical: code words of equal length are
    consecutive numbers, and each length starts where the shorter ones leave off. From that follow
    prefix freeness and completeness. */
module HuffmanTable {
  import opened Bits
  import opened Huffman

  // ----- Canonical codes

  /** The code words of one length: the first of them and how many words are shorter. */
  datatype Row = Row(bits: nat, first: nat, base: nat)

  function CodeIn(r: Row, k: nat): (c: Code) {
    if k < r.base then Code(0, 0) else Code(r.first + (k - r.base), r.bits)
  }

  predicate RowSized(r: Row, k: nat) {
    r.base <= k && 5 <= r.bits <= 30 && CodeIn(r, k).code < Pow2(r.bits)
  }

  /** The word of rank k + 1 is the next number, extended if it is longer. */
  predicate RowFollows(r: Row, r': Row, k: nat) {
    r == r' || (
      k + 1 == r'.base && r.base <= k && r.bits < r'.bits <= 30 &&
      r'.first == ShiftLeft(r.first + (k + 1 - r.base), r'.bits - r.bits))
  }

  /** Where the w-bit strings that begin with a code word start, and where they end. */
  function Start(c: Code, w: nat): (v: nat) {
    if c.bits <= w then ShiftLeft(c.code, w - c.bits) else 0
  }

  function End(c: Code, w: nat): (v: nat) {
    if c.bits <= w then Start(c, w) + Pow2(w - c.bits) else 0
  }

  /** Code words whose intervals partition the w-bit strings. */
  predicate Chain(cs: seq<Code>, w: nat) {
    && cs != [] && Start(cs[0], w) == 0 && End(cs[|cs| - 1], w) == Pow2(w)
    && (forall k :: 0 <= k < |cs| ==> Sized(cs[k], w))
    && (forall k :: 0 < k < |cs| ==> End(cs[k - 1], w) == Start(cs[k], w))
  }

  predicate Sized(c: Code, w: nat) {
    c.bits <= w && c.code < Pow2(c.bits)
  }

  lemma {:induction false} Ordered(cs: seq<Code>, w: nat, j: nat, k: nat)
    requires Chain(cs, w) && j < k < |cs|
    ensures End(cs[j], w) <= Start(cs[k], w)
  {
    assert End(cs[k - 1], w) == Start(cs[k], w);
    if j < k - 1 {
      Ordered(cs, w, j, k - 1);
      assert Sized(cs[k - 1], w);
    }
  }

  lemma {:induction false} Covered(cs: seq<Code>, w: nat, v: nat, n: nat) returns (k: nat)
    requires Chain(cs, w) && n < |cs| && v < End(cs[n], w)
    ensures k < |cs| && Start(cs[k], w) <= v < End(cs[k], w)
  {
    k := n;
    if v < Start(cs[n], w) {
      assert End(cs[n - 1], w) == Start(cs[n], w);
      k := Covered(cs, w, v, n - 1);
    }
  }

  /** A w-bit string starts with a code word exactly if its value is in the interval. */
  lemma {:induction false} InInterval(c: Code, w: nat, v: nat)
    requires Sized(c, w) && v < Pow2(w)
    ensures Start(c, w) <= v < End(c, w) <==> ToBits(c.code, c.bits) <= ToBits(v, w)
  {
    var m := w - c.bits;
    assert c.bits + m == w;
    Aligned(c.code, c.bits, m, v);
  }

  lemma {:induction false} SamePrefix(cs: seq<Code>, w: nat, j: nat, k: nat)
    requires Chain(cs, w) && j < |cs| && k < |cs|
    requires ToBits(cs[j].code, cs[j].bits) <= ToBits(cs[k].code, cs[k].bits)
    ensures j == k
  {
    var v := Start(cs[k], w);
    assert Sized(cs[j], w) && Sized(cs[k], w);
    assert v < Pow2(w) by {
      if k < |cs| - 1 { Ordered(cs, w, k, |cs| - 1); }
      assert Sized(cs[|cs| - 1], w);
    }
    InInterval(cs[k], w, v);
    InInterval(cs[j], w, v);
    if j < k { Ordered(cs, w, j, k); } else if k < j { Ordered(cs, w, k, j); }
  }

  // ----- Ranks

  function Below(n: nat): (s: set<nat>) {
    if n == 0 then {} else Below(n - 1) + {n - 1}
  }

  lemma {:induction false} BelowContains(n: nat, x: nat)
    ensures x in Below(n) <==> x < n
  {
    if n > 0 { BelowContains(n - 1, x); }
  }

  lemma {:induction false} BelowSize(n: nat)
    ensures |Below(n)| == n
  {
    if n > 0 {
      BelowSize(n - 1);
      BelowContains(n - 1, n - 1);
    }
  }

  function Listed(order: seq<nat>): (s: set<nat>) {
    set x | x in order
  }

  lemma {:induction false} ListedSize(order: seq<nat>)
    requires forall j, k :: 0 <= j < k < |order| ==> order[j] != order[k]
    ensures |Listed(order)| == |order|
  {
    if order != [] {
      var front, last := order[..|order| - 1], order[|order| - 1];
      ListedSize(front);
      assert Listed(order) == Listed(front) + {last};
      assert last !in Listed(front);
    }
  }

  lemma {:induction false} SameSize<T>(a: set<T>, b: set<T>)
    requires a <= b && |a| == |b|
    ensures a == b
  {
    assert |b - a| == |b| - |a|;
  }

  /** n different numbers below n are all of them. */
  lemma {:induction false} Pigeonhole(order: seq<nat>, s: nat)
    requires forall j, k :: 0 <= j < k < |order| ==> order[j] != order[k]
    requires forall k :: 0 <= k < |order| ==> order[k] < |order|
    requires s < |order|
    ensures s in order
  {
    ListedSize(order);
    BelowSize(|order|);
    forall x | x in Listed(order) ensures x in Below(|order|) { BelowContains(|order|, x); }
    SameSize(Listed(order), Below(|order|));
    BelowContains(|order|, s);
    assert s in Listed(order);
  }

  /** order lists the symbols by the rank of their code words. */
  predicate Canonical(codes: seq<Code>, cs: seq<Code>, order: seq<nat>) {
    && |codes| == |cs| == |order|
    && (forall k :: 0 <= k < |cs| ==> order[k] < |cs| && codes[order[k]] == cs[k])
  }

  lemma {:induction false} RankExists(codes: seq<Code>, cs: seq<Code>, order: seq<nat>, w: nat, s: nat) returns (k: nat)
    requires Canonical(codes, cs, order) && Chain(cs, w) && s < |cs|
    ensures k < |cs| && order[k] == s && codes[s] == cs[k]
  {
    forall j, k | 0 <= j < k < |order| ensures order[j] != order[k] {
      if order[j] == order[k] { SamePrefix(cs, w, j, k); }
    }
    Pigeonhole(order, s);
    k :| 0 <= k < |cs| && order[k] == s;
  }

  lemma {:induction false} CanonicalPrefixFree(codes: seq<Code>, cs: seq<Code>, order: seq<nat>, w: nat)
    requires Canonical(codes, cs, order) && Chain(cs, w)
    ensures PrefixFree(codes)
  {
    forall s, t | 0 <= s < |codes| && 0 <= t < |codes| && Word(codes, s) <= Word(codes, t) ensures s == t {
      var j := RankExists(codes, cs, order, w, s);
      var k := RankExists(codes, cs, order, w, t);
      SamePrefix(cs, w, j, k);
    }
  }

  lemma {:induction false} StartsWithWord(codes: seq<Code>, cs: seq<Code>, order: seq<nat>, w: nat, b: seq<bool>)
    requires Canonical(codes, cs, order) && Chain(cs, w) && |b| >= w
    ensures HasWord(codes, b)
  {
    var v := FromBits(b[..w]);
    FromBitsBound(b[..w]);
    ToFromBits(b[..w]);
    var k := Covered(cs, w, v, |cs| - 1);
    assert Sized(cs[k], w);
    InInterval(cs[k], w, v);
    assert Word(codes, order[k]) <= b[..w] <= b;
  }

  // ----- Rows of equally long code words

  lemma {:induction false} NextInterval(r: Row, r': Row, k: nat, w: nat)
    requires r.base <= k && r.bits <= w && r'.bits <= w && RowFollows(r, r', k)
    ensures End(CodeIn(r, k), w) == Start(CodeIn(r', k + 1), w)
  {
    var code, m := r.first + (k - r.base), w - r.bits;
    ShiftLeftAdd(code, 1, m);
    ShiftLeftOne(m);
    if r != r' {
      ShiftLeftTwice(code + 1, r'.bits - r.bits, w - r'.bits);
    }
  }

  predicate RowEntry(rowAt: nat -> Row, k: nat) {
    && RowSized(rowAt(k), k)
    && (k < 256 ==> RowFollows(rowAt(k), rowAt(k + 1), k))
    && (k == 0 ==> CodeIn(rowAt(k), k).code == 0)
    && (k == 256 ==> rowAt(k).bits == 30 && AllOnes(CodeIn(rowAt(k), k)))
  }

  lemma {:induction false} RowsAreChain(cs: seq<Code>, rowAt: nat -> Row, w: nat)
    requires w == 30 && |cs| == 257 && forall k :: 0 <= k < 257 ==> cs[k] == CodeIn(rowAt(k), k)
    requires forall k :: 0 <= k < 257 ==> RowEntry(rowAt, k)
    ensures Chain(cs, w)
  {
    forall k | 0 <= k < 257 ensures Sized(cs[k], w) { assert RowEntry(rowAt, k); }
    forall k | 0 < k < 257 ensures End(cs[k - 1], w) == Start(cs[k], w) {
      assert RowEntry(rowAt, k - 1) && RowEntry(rowAt, k);
      NextInterval(rowAt(k - 1), rowAt(k), k - 1, w);
    }
    assert RowEntry(rowAt, 0) && RowEntry(rowAt, 256);
    ShiftLeftZero(w - cs[0].bits);
  }

  /** What the positions of a table have to satisfy for the table to be canonical. */
  predicate Entry(codeAt: nat -> Code, rowAt: nat -> Row, symbolAt: nat -> nat, k: nat) {
    symbolAt(k) < 257 && codeAt(symbolAt(k)) == CodeIn(rowAt(k), k)
  }

  /** Canonical codes are prefix free and complete. */
  lemma {:induction false} CanonicalIsGood(codes: seq<Code>, codeAt: nat -> Code, rowAt: nat -> Row, symbolAt: nat -> nat)
    requires |codes| == 257 && forall s :: 0 <= s < 257 ==> codes[s] == codeAt(s)
    requires forall k :: 0 <= k < 257 ==> Entry(codeAt, rowAt, symbolAt, k)
    requires forall k :: 0 <= k < 257 ==> RowEntry(rowAt, k)
    requires codeAt(EOS) == CodeIn(rowAt(256), 256)
    ensures GoodCodes(codes)
  {
    var w := 30;
    var cs := seq(257, k requires 0 <= k < 257 => CodeIn(rowAt(k), k));
    var order := seq(257, k requires 0 <= k < 257 => symbolAt(k));
    RowsAreChain(cs, rowAt, w);
    forall k | 0 <= k < 257 ensures order[k] < 257 && codes[order[k]] == cs[k] {
      assert Entry(codeAt, rowAt, symbolAt, k);
    }
    CanonicalPrefixFree(codes, cs, order, w);
    forall b: seq<bool> | |b| >= 30 ensures HasWord(codes, b) {
      StartsWithWord(codes, cs, order, w, b);
    }
    RowsAreSized(codes, cs, order, rowAt, w);
    assert RowEntry(rowAt, 256);
  }

  lemma {:induction false} RowsAreSized(codes: seq<Code>, cs: seq<Code>, order: seq<nat>, rowAt: nat -> Row, w: nat)
    requires |cs| == 257 && forall k :: 0 <= k < 257 ==> cs[k] == CodeIn(rowAt(k), k)
    requires forall k :: 0 <= k < 257 ==> RowEntry(rowAt, k)
    requires Canonical(codes, cs, order) && Chain(cs, w)
    ensures WellSized(codes)
  {
    forall s | 0 <= s < 257 ensures 5 <= codes[s].bits <= 30 && codes[s].code < Pow2(codes[s].bits) {
      var k := RankExists(codes, cs, order, w, s);
      assert RowEntry(rowAt, k);
    }
  }

  // ----- The rows of the table

  function RowAt(k: nat): (r: Row) {
    if k < 95 then
      if k < 79 then
        if k < 36 then
          if k < 10 then
            Row(5, 0x0, 0)
          else
            Row(6, 0x14, 10)
        else
          if k < 68 then
            Row(7, 0x5c, 36)
          else
            if k < 74 then
              Row(8, 0xf8, 68)
            else
              Row(10, 0x3f8, 74)
      else
        if k < 84 then
          if k < 82 then
            Row(11, 0x7fa, 79)
          else
            Row(12, 0xffa, 82)
        else
          if k < 90 then
            Row(13, 0x1ff8, 84)
          else
            if k < 92 then
              Row(14, 0x3ffc, 90)
            else
              Row(15, 0x7ffc, 92)
    else
      if k < 174 then
        if k < 106 then
          if k < 98 then
            Row(19, 0x7fff0, 95)
          else
            Row(20, 0xfffe6, 98)
        else
          if k < 119 then
            Row(21, 0x1fffdc, 106)
          else
            if k < 145 then
              Row(22, 0x3fffd2, 119)
            else
              Row(23, 0x7fffd8, 145)
      else
        if k < 205 then
          if k < 186 then
            Row(24, 0xffffea, 174)
          else
            if k < 190 then
              Row(25, 0x1ffffec, 186)
            else
              Row(26, 0x3ffffe0, 190)
        else
          if k < 224 then
            Row(27, 0x7ffffde, 205)
          else
            if k < 253 then
              Row(28, 0xfffffe2, 224)
            else
              Row(30, 0x3ffffffc, 253)
  }

  lemma {:induction false} Pow2Table()
    ensures Pow2(0) == 0x1 && Pow2(1) == 0x2 && Pow2(2) == 0x4 && Pow2(3) == 0x8 && Pow2(4) == 0x10
    ensures Pow2(5) == 0x20 && Pow2(6) == 0x40 && Pow2(7) == 0x80 && Pow2(8) == 0x100 && Pow2(9) == 0x200
    ensures Pow2(10) == 0x400 && Pow2(11) == 0x800 && Pow2(12) == 0x1000 && Pow2(13) == 0x2000 && Pow2(14) == 0x4000
    ensures Pow2(15) == 0x8000 && Pow2(16) == 0x10000 && Pow2(17) == 0x20000 && Pow2(18) == 0x40000 && Pow2(19) == 0x80000
    ensures Pow2(20) == 0x100000 && Pow2(21) == 0x200000 && Pow2(22) == 0x400000 && Pow2(23) == 0x800000 && Pow2(24) == 0x1000000
    ensures Pow2(25) == 0x2000000 && Pow2(26) == 0x4000000 && Pow2(27) == 0x8000000 && Pow2(28) == 0x10000000 && Pow2(29) == 0x20000000
    ensures Pow2(30) == 0x40000000
  {
    assert Pow2(8) == 0x100;
    assert Pow2(16) == 0x100 * Pow2(8) by { Double8(8); }
    assert Pow2(24) == 0x100 * Pow2(16) by { Double8(16); }
  }

  lemma {:induction false} Double8(m: nat)
    ensures Pow2(m + 8) == 0x100 * Pow2(m)
  {
    assert Pow2(m + 8) == 2 * Pow2(m + 7) == 4 * Pow2(m + 6) == 8 * Pow2(m + 5) == 16 * Pow2(m + 4);
    assert Pow2(m + 4) == 2 * Pow2(m + 3) == 4 * Pow2(m + 2) == 8 * Pow2(m + 1) == 16 * Pow2(m);
  }

  lemma {:induction false} RowIsSized(k: nat)
    requires k < 257
    ensures RowSized(RowAt(k), k)
  {
    Pow2Table();
  }

  lemma {:induction false} NextRow(k: nat)
    requires k < 256
    ensures RowFollows(RowAt(k), RowAt(k + 1), k)
  {
    var d := RowAt(k + 1).bits - RowAt(k).bits;
    var x := RowAt(k).first + (k + 1 - RowAt(k).base);
    if d > 0 && x >= 0 {
      assert ShiftLeft(x, 1) == 2 * x;
      assert ShiftLeft(x, 2) == 4 * x;
      assert ShiftLeft(x, 4) == 16 * x;
    }
  }

  lemma {:induction false} TableRow(k: nat)
    requires k < 257
    ensures RowEntry(RowAt, k)
  {
    RowIsSized(k);
    if k < 256 {
      NextRow(k);
    } else {
      Pow2Table();
    }
  }

  // ----- The table

  function CodeAt(s: nat): (c: Code) {
    if s < 128 then
      if s < 64 then
        if s < 32 then
          if s < 16 then
            if s < 8 then
              if s < 4 then
                if s == 0 then Code(0x1ff8, 13) else if s == 1 then Code(0x7fffd8, 23) else if s == 2 then Code(0xfffffe2, 28) else Code(0xfffffe3, 28)
              else
                if s == 4 then Code(0xfffffe4, 28) else if s == 5 then Code(0xfffffe5, 28) else if s == 6 then Code(0xfffffe6, 28) else Code(0xfffffe7, 28)
            else
              if s < 12 then
                if s == 8 then Code(0xfffffe8, 28) else if s == 9 then Code(0xffffea, 24) else if s == 10 then Code(0x3ffffffc, 30) else Code(0xfffffe9, 28)
              else
                if s == 12 then Code(0xfffffea, 28) else if s == 13 then Code(0x3ffffffd, 30) else if s == 14 then Code(0xfffffeb, 28) else Code(0xfffffec, 28)
          else
            if s < 24 then
              if s < 20 then
                if s == 16 then Code(0xfffffed, 28) else if s == 17 then Code(0xfffffee, 28) else if s == 18 then Code(0xfffffef, 28) else Code(0xffffff0, 28)
              else
                if s == 20 then Code(0xffffff1, 28) else if s == 21 then Code(0xffffff2, 28) else if s == 22 then Code(0x3ffffffe, 30) else Code(0xffffff3, 28)
            else
              if s < 28 then
                if s == 24 then Code(0xffffff4, 28) else if s == 25 then Code(0xffffff5, 28) else if s == 26 then Code(0xffffff6, 28) else Code(0xffffff7, 28)
              else
                if s == 28 then Code(0xffffff8, 28) else if s == 29 then Code(0xffffff9, 28) else if s == 30 then Code(0xffffffa, 28) else Code(0xffffffb, 28)
        else
          if s < 48 then
            if s < 40 then
              if s < 36 then
                if s == 32 then Code(0x14, 6) else if s == 33 then Code(0x3f8, 10) else if s == 34 then Code(0x3f9, 10) else Code(0xffa, 12)
              else
                if s == 36 then Code(0x1ff9, 13) else if s == 37 then Code(0x15, 6) else if s == 38 then Code(0xf8, 8) else Code(0x7fa, 11)
            else
              if s < 44 then
                if s == 40 then Code(0x3fa, 10) else if s == 41 then Code(0x3fb, 10) else if s == 42 then Code(0xf9, 8) else Code(0x7fb, 11)
              else
                if s == 44 then Code(0xfa, 8) else if s == 45 then Code(0x16, 6) else if s == 46 then Code(0x17, 6) else Code(0x18, 6)
          else
            if s < 56 then
              if s < 52 then
                if s == 48 then Code(0x0, 5) else if s == 49 then Code(0x1, 5) else if s == 50 then Code(0x2, 5) else Code(0x19, 6)
              else
                if s == 52 then Code(0x1a, 6) else if s == 53 then Code(0x1b, 6) else if s == 54 then Code(0x1c, 6) else Code(0x1d, 6)
            else
              if s < 60 then
                if s == 56 then Code(0x1e, 6) else if s == 57 then Code(0x1f, 6) else if s == 58 then Code(0x5c, 7) else Code(0xfb, 8)
              else
                if s == 60 then Code(0x7ffc, 15) else if s == 61 then Code(0x20, 6) else if s == 62 then Code(0xffb, 12) else Code(0x3fc, 10)
      else
        if s < 96 then
          if s < 80 then
            if s < 72 then
              if s < 68 then
                if s == 64 then Code(0x1ffa, 13) else if s == 65 then Code(0x21, 6) else if s == 66 then Code(0x5d, 7) else Code(0x5e, 7)
              else
                if s == 68 then Code(0x5f, 7) else if s == 69 then Code(0x60, 7) else if s == 70 then Code(0x61, 7) else Code(0x62, 7)
            else
              if s < 76 then
                if s == 72 then Code(0x63, 7) else if s == 73 then Code(0x64, 7) else if s == 74 then Code(0x65, 7) else Code(0x66, 7)
              else
                if s == 76 then Code(0x67, 7) else if s == 77 then Code(0x68, 7) else if s == 78 then Code(0x69, 7) else Code(0x6a, 7)
          else
            if s < 88 then
              if s < 84 then
                if s == 80 then Code(0x6b, 7) else if s == 81 then Code(0x6c, 7) else if s == 82 then Code(0x6d, 7) else Code(0x6e, 7)
              else
                if s == 84 then Code(0x6f, 7) else if s == 85 then Code(0x70, 7) else if s == 86 then Code(0x71, 7) else Code(0x72, 7)
            else
              if s < 92 then
                if s == 88 then Code(0xfc, 8) else if s == 89 then Code(0x73, 7) else if s == 90 then Code(0xfd, 8) else Code(0x1ffb, 13)
              else
                if s == 92 then Code(0x7fff0, 19) else if s == 93 then Code(0x1ffc, 13) else if s == 94 then Code(0x3ffc, 14) else Code(0x22, 6)
        else
          if s < 112 then
            if s < 104 then
              if s < 100 then
                if s == 96 then Code(0x7ffd, 15) else if s == 97 then Code(0x3, 5) else if s == 98 then Code(0x23, 6) else Code(0x4, 5)
              else
                if s == 100 then Code(0x24, 6) else if s == 101 then Code(0x5, 5) else if s == 102 then Code(0x25, 6) else Code(0x26, 6)
            else
              if s < 108 then
                if s == 104 then Code(0x27, 6) else if s == 105 then Code(0x6, 5) else if s == 106 then Code(0x74, 7) else Code(0x75, 7)
              else
                if s == 108 then Code(0x28, 6) else if s == 109 then Code(0x29, 6) else if s == 110 then Code(0x2a, 6) else Code(0x7, 5)
          else
            if s < 120 then
              if s < 116 then
                if s == 112 then Code(0x2b, 6) else if s == 113 then Code(0x76, 7) else if s == 114 then Code(0x2c, 6) else Code(0x8, 5)
              else
                if s == 116 then Code(0x9, 5) else if s == 117 then Code(0x2d, 6) else if s == 118 then Code(0x77, 7) else Code(0x78, 7)
            else
              if s < 124 then
                if s == 120 then Code(0x79, 7) else if s == 121 then Code(0x7a, 7) else if s == 122 then Code(0x7b, 7) else Code(0x7ffe, 15)
              else
                if s == 124 then Code(0x7fc, 11) else if s == 125 then Code(0x3ffd, 14) else if s == 126 then Code(0x1ffd, 13) else Code(0xffffffc, 28)
    else
      if s < 192 then
        if s < 160 then
          if s < 144 then
            if s < 136 then
              if s < 132 then
                if s == 128 then Code(0xfffe6, 20) else if s == 129 then Code(0x3fffd2, 22) else if s == 130 then Code(0xfffe7, 20) else Code(0xfffe8, 20)
              else
                if s == 132 then Code(0x3fffd3, 22) else if s == 133 then Code(0x3fffd4, 22) else if s == 134 then Code(0x3fffd5, 22) else Code(0x7fffd9, 23)
            else
              if s < 140 then
                if s == 136 then Code(0x3fffd6, 22) else if s == 137 then Code(0x7fffda, 23) else if s == 138 then Code(0x7fffdb, 23) else Code(0x7fffdc, 23)
              else
                if s == 140 then Code(0x7fffdd, 23) else if s == 141 then Code(0x7fffde, 23) else if s == 142 then Code(0xffffeb, 24) else Code(0x7fffdf, 23)
          else
            if s < 152 then
              if s < 148 then
                if s == 144 then Code(0xffffec, 24) else if s == 145 then Code(0xffffed, 24) else if s == 146 then Code(0x3fffd7, 22) else Code(0x7fffe0, 23)
              else
                if s == 148 then Code(0xffffee, 24) else if s == 149 then Code(0x7fffe1, 23) else if s == 150 then Code(0x7fffe2, 23) else Code(0x7fffe3, 23)
            else
              if s < 156 then
                if s == 152 then Code(0x7fffe4, 23) else if s == 153 then Code(0x1fffdc, 21) else if s == 154 then Code(0x3fffd8, 22) else Code(0x7fffe5, 23)
              else
                if s == 156 then Code(0x3fffd9, 22) else if s == 157 then Code(0x7fffe6, 23) else if s == 158 then Code(0x7fffe7, 23) else Code(0xffffef, 24)
        else
          if s < 176 then
            if s < 168 then
              if s < 164 then
                if s == 160 then Code(0x3fffda, 22) else if s == 161 then Code(0x1fffdd, 21) else if s == 162 then Code(0xfffe9, 20) else Code(0x3fffdb, 22)
              else
                if s == 164 then Code(0x3fffdc, 22) else if s == 165 then Code(0x7fffe8, 23) else if s == 166 then Code(0x7fffe9, 23) else Code(0x1fffde, 21)
            else
              if s < 172 then
                if s == 168 then Code(0x7fffea, 23) else if s == 169 then Code(0x3fffdd, 22) else if s == 170 then Code(0x3fffde, 22) else Code(0xfffff0, 24)
              else
                if s == 172 then Code(0x1fffdf, 21) else if s == 173 then Code(0x3fffdf, 22) else if s == 174 then Code(0x7fffeb, 23) else Code(0x7fffec, 23)
          else
            if s < 184 then
              if s < 180 then
                if s == 176 then Code(0x1fffe0, 21) else if s == 177 then Code(0x1fffe1, 21) else if s == 178 then Code(0x3fffe0, 22) else Code(0x1fffe2, 21)
              else
                if s == 180 then Code(0x7fffed, 23) else if s == 181 then Code(0x3fffe1, 22) else if s == 182 then Code(0x7fffee, 23) else Code(0x7fffef, 23)
            else
              if s < 188 then
                if s == 184 then Code(0xfffea, 20) else if s == 185 then Code(0x3fffe2, 22) else if s == 186 then Code(0x3fffe3, 22) else Code(0x3fffe4, 22)
              else
                if s == 188 then Code(0x7ffff0, 23) else if s == 189 then Code(0x3fffe5, 22) else if s == 190 then Code(0x3fffe6, 22) else Code(0x7ffff1, 23)
      else
        if s < 224 then
          if s < 208 then
            if s < 200 then
              if s < 196 then
                if s == 192 then Code(0x3ffffe0, 26) else if s == 193 then Code(0x3ffffe1, 26) else if s == 194 then Code(0xfffeb, 20) else Code(0x7fff1, 19)
              else
                if s == 196 then Code(0x3fffe7, 22) else if s == 197 then Code(0x7ffff2, 23) else if s == 198 then Code(0x3fffe8, 22) else Code(0x1ffffec, 25)
            else
              if s < 204 then
                if s == 200 then Code(0x3ffffe2, 26) else if s == 201 then Code(0x3ffffe3, 26) else if s == 202 then Code(0x3ffffe4, 26) else Code(0x7ffffde, 27)
              else
                if s == 204 then Code(0x7ffffdf, 27) else if s == 205 then Code(0x3ffffe5, 26) else if s == 206 then Code(0xfffff1, 24) else Code(0x1ffffed, 25)
          else
            if s < 216 then
              if s < 212 then
                if s == 208 then Code(0x7fff2, 19) else if s == 209 then Code(0x1fffe3, 21) else if s == 210 then Code(0x3ffffe6, 26) else Code(0x7ffffe0, 27)
              else
                if s == 212 then Code(0x7ffffe1, 27) else if s == 213 then Code(0x3ffffe7, 26) else if s == 214 then Code(0x7ffffe2, 27) else Code(0xfffff2, 24)
            else
              if s < 220 then
                if s == 216 then Code(0x1fffe4, 21) else if s == 217 then Code(0x1fffe5, 21) else if s == 218 then Code(0x3ffffe8, 26) else Code(0x3ffffe9, 26)
              else
                if s == 220 then Code(0xffffffd, 28) else if s == 221 then Code(0x7ffffe3, 27) else if s == 222 then Code(0x7ffffe4, 27) else Code(0x7ffffe5, 27)
        else
          if s < 240 then
            if s < 232 then
              if s < 228 then
                if s == 224 then Code(0xfffec, 20) else if s == 225 then Code(0xfffff3, 24) else if s == 226 then Code(0xfffed, 20) else Code(0x1fffe6, 21)
              else
                if s == 228 then Code(0x3fffe9, 22) else if s == 229 then Code(0x1fffe7, 21) else if s == 230 then Code(0x1fffe8, 21) else Code(0x7ffff3, 23)
            else
              if s < 236 then
                if s == 232 then Code(0x3fffea, 22) else if s == 233 then Code(0x3fffeb, 22) else if s == 234 then Code(0x1ffffee, 25) else Code(0x1ffffef, 25)
              else
                if s == 236 then Code(0xfffff4, 24) else if s == 237 then Code(0xfffff5, 24) else if s == 238 then Code(0x3ffffea, 26) else Code(0x7ffff4, 23)
          else
            if s < 248 then
              if s < 244 then
                if s == 240 then Code(0x3ffffeb, 26) else if s == 241 then Code(0x7ffffe6, 27) else if s == 242 then Code(0x3ffffec, 26) else Code(0x3ffffed, 26)
              else
                if s == 244 then Code(0x7ffffe7, 27) else if s == 245 then Code(0x7ffffe8, 27) else if s == 246 then Code(0x7ffffe9, 27) else Code(0x7ffffea, 27)
            else
              if s < 252 then
                if s == 248 then Code(0x7ffffeb, 27) else if s == 249 then Code(0xffffffe, 28) else if s == 250 then Code(0x7ffffec, 27) else Code(0x7ffffed, 27)
              else
                if s < 256 then
                  if s == 252 then Code(0x7ffffee, 27) else if s == 253 then Code(0x7ffffef, 27) else if s == 254 then Code(0x7fffff0, 27) else Code(0x3ffffee, 26)
                else
                  Code(0x3fffffff, 30)
  }

  /** The symbols in the order of their code words. */
  function SymbolAt(k: nat): (s: nat) {
    if k < 128 then
      if k < 64 then
        if k < 32 then
          if k < 16 then
            if k < 8 then
              if k < 4 then
                if k == 0 then 48 else if k == 1 then 49 else if k == 2 then 50 else 97
              else
                if k == 4 then 99 else if k == 5 then 101 else if k == 6 then 105 else 111
            else
              if k < 12 then
                if k == 8 then 115 else if k == 9 then 116 else if k == 10 then 32 else 37
              else
                if k == 12 then 45 else if k == 13 then 46 else if k == 14 then 47 else 51
          else
            if k < 24 then
              if k < 20 then
                if k == 16 then 52 else if k == 17 then 53 else if k == 18 then 54 else 55
              else
                if k == 20 then 56 else if k == 21 then 57 else if k == 22 then 61 else 65
            else
              if k < 28 then
                if k == 24 then 95 else if k == 25 then 98 else if k == 26 then 100 else 102
              else
                if k == 28 then 103 else if k == 29 then 104 else if k == 30 then 108 else 109
        else
          if k < 48 then
            if k < 40 then
              if k < 36 then
                if k == 32 then 110 else if k == 33 then 112 else if k == 34 then 114 else 117
              else
                if k == 36 then 58 else if k == 37 then 66 else if k == 38 then 67 else 68
            else
              if k < 44 then
                if k == 40 then 69 else if k == 41 then 70 else if k == 42 then 71 else 72
              else
                if k == 44 then 73 else if k == 45 then 74 else if k == 46 then 75 else 76
          else
            if k < 56 then
              if k < 52 then
                if k == 48 then 77 else if k == 49 then 78 else if k == 50 then 79 else 80
              else
                if k == 52 then 81 else if k == 53 then 82 else if k == 54 then 83 else 84
            else
              if k < 60 then
                if k == 56 then 85 else if k == 57 then 86 else if k == 58 then 87 else 89
              else
                if k == 60 then 106 else if k == 61 then 107 else if k == 62 then 113 else 118
      else
        if k < 96 then
          if k < 80 then
            if k < 72 then
              if k < 68 then
                if k == 64 then 119 else if k == 65 then 120 else if k == 66 then 121 else 122
              else
                if k == 68 then 38 else if k == 69 then 42 else if k == 70 then 44 else 59
            else
              if k < 76 then
                if k == 72 then 88 else if k == 73 then 90 else if k == 74 then 33 else 34
              else
                if k == 76 then 40 else if k == 77 then 41 else if k == 78 then 63 else 39
          else
            if k < 88 then
              if k < 84 then
                if k == 80 then 43 else if k == 81 then 124 else if k == 82 then 35 else 62
              else
                if k == 84 then 0 else if k == 85 then 36 else if k == 86 then 64 else 91
            else
              if k < 92 then
                if k == 88 then 93 else if k == 89 then 126 else if k == 90 then 94 else 125
              else
                if k == 92 then 60 else if k == 93 then 96 else if k == 94 then 123 else 92
        else
          if k < 112 then
            if k < 104 then
              if k < 100 then
                if k == 96 then 195 else if k == 97 then 208 else if k == 98 then 128 else 130
              else
                if k == 100 then 131 else if k == 101 then 162 else if k == 102 then 184 else 194
            else
              if k < 108 then
                if k == 104 then 224 else if k == 105 then 226 else if k == 106 then 153 else 161
              else
                if k == 108 then 167 else if k == 109 then 172 else if k == 110 then 176 else 177
          else
            if k < 120 then
              if k < 116 then
                if k == 112 then 179 else if k == 113 then 209 else if k == 114 then 216 else 217
              else
                if k == 116 then 227 else if k == 117 then 229 else if k == 118 then 230 else 129
            else
              if k < 124 then
                if k == 120 then 132 else if k == 121 then 133 else if k == 122 then 134 else 136
              else
                if k == 124 then 146 else if k == 125 then 154 else if k == 126 then 156 else 160
    else
      if k < 192 then
        if k < 160 then
          if k < 144 then
            if k < 136 then
              if k < 132 then
                if k == 128 then 163 else if k == 129 then 164 else if k == 130 then 169 else 170
              else
                if k == 132 then 173 else if k == 133 then 178 else if k == 134 then 181 else 185
            else
              if k < 140 then
                if k == 136 then 186 else if k == 137 then 187 else if k == 138 then 189 else 190
              else
                if k == 140 then 196 else if k == 141 then 198 else if k == 142 then 228 else 232
          else
            if k < 152 then
              if k < 148 then
                if k == 144 then 233 else if k == 145 then 1 else if k == 146 then 135 else 137
              else
                if k == 148 then 138 else if k == 149 then 139 else if k == 150 then 140 else 141
            else
              if k < 156 then
                if k == 152 then 143 else if k == 153 then 147 else if k == 154 then 149 else 150
              else
                if k == 156 then 151 else if k == 157 then 152 else if k == 158 then 155 else 157
        else
          if k < 176 then
            if k < 168 then
              if k < 164 then
                if k == 160 then 158 else if k == 161 then 165 else if k == 162 then 166 else 168
              else
                if k == 164 then 174 else if k == 165 then 175 else if k == 166 then 180 else 182
            else
              if k < 172 then
                if k == 168 then 183 else if k == 169 then 188 else if k == 170 then 191 else 197
              else
                if k == 172 then 231 else if k == 173 then 239 else if k == 174 then 9 else 142
          else
            if k < 184 then
              if k < 180 then
                if k == 176 then 144 else if k == 177 then 145 else if k == 178 then 148 else 159
              else
                if k == 180 then 171 else if k == 181 then 206 else if k == 182 then 215 else 225
            else
              if k < 188 then
                if k == 184 then 236 else if k == 185 then 237 else if k == 186 then 199 else 207
              else
                if k == 188 then 234 else if k == 189 then 235 else if k == 190 then 192 else 193
      else
        if k < 224 then
          if k < 208 then
            if k < 200 then
              if k < 196 then
                if k == 192 then 200 else if k == 193 then 201 else if k == 194 then 202 else 205
              else
                if k == 196 then 210 else if k == 197 then 213 else if k == 198 then 218 else 219
            else
              if k < 204 then
                if k == 200 then 238 else if k == 201 then 240 else if k == 202 then 242 else 243
              else
                if k == 204 then 255 else if k == 205 then 203 else if k == 206 then 204 else 211
          else
            if k < 216 then
              if k < 212 then
                if k == 208 then 212 else if k == 209 then 214 else if k == 210 then 221 else 222
              else
                if k == 212 then 223 else if k == 213 then 241 else if k == 214 then 244 else 245
            else
              if k < 220 then
                if k == 216 then 246 else if k == 217 then 247 else if k == 218 then 248 else 250
              else
                if k == 220 then 251 else if k == 221 then 252 else if k == 222 then 253 else 254
        else
          if k < 240 then
            if k < 232 then
              if k < 228 then
                if k == 224 then 2 else if k == 225 then 3 else if k == 226 then 4 else 5
              else
                if k == 228 then 6 else if k == 229 then 7 else if k == 230 then 8 else 11
            else
              if k < 236 then
                if k == 232 then 12 else if k == 233 then 14 else if k == 234 then 15 else 16
              else
                if k == 236 then 17 else if k == 237 then 18 else if k == 238 then 19 else 20
          else
            if k < 248 then
              if k < 244 then
                if k == 240 then 21 else if k == 241 then 23 else if k == 242 then 24 else 25
              else
                if k == 244 then 26 else if k == 245 then 27 else if k == 246 then 28 else 29
            else
              if k < 252 then
                if k == 248 then 30 else if k == 249 then 31 else if k == 250 then 127 else 220
              else
                if k < 256 then
                  if k == 252 then 249 else if k == 253 then 10 else if k == 254 then 13 else 22
                else
                  256
  }

  predicate TableEntry(k: nat) {
    Entry(CodeAt, RowAt, SymbolAt, k)
  }

  lemma {:induction false} Entries0(k: nat)
    requires 0 <= k < 5
    ensures TableEntry(k)
  {
  }

  lemma {:induction false} Entries1(k: nat)
    requires 5 <= k < 10
    ensures TableEntry(k)
  {
  }

  lemma {:induction false} Entries2(k: nat)
    requires 10 <= k < 36
    ensures TableEntry(k)
  {
  }

  lemma {:induction false} Entries3(k: nat)
    requires 36 <= k < 68
    ensures TableEntry(k)
  {
  }

  lemma {:induction false} Entries4(k: nat)
    requires 68 <= k < 106
    ensures TableEntry(k)
  {
  }

  lemma {:induction false} Entries5(k: nat)
    requires 106 <= k < 145
    ensures TableEntry(k)
  {
  }

  lemma {:induction false} Entries6(k: nat)
    requires 145 <= k < 174
    ensures TableEntry(k)
  {
  }

  lemma {:induction false} Entries7(k: nat)
    requires 174 <= k < 205
    ensures TableEntry(k)
  {
  }

  lemma {:induction false} Entries8(k: nat)
    requires 205 <= k < 224
    ensures TableEntry(k)
  {
  }

  lemma {:induction false} Entries9(k: nat)
    requires 224 <= k < 257
    ensures TableEntry(k)
  {
  }

  /** The symbol of each rank has the code word of that rank. */
  lemma {:induction false} Entries(k: nat)
    requires k < 257
    ensures TableEntry(k)
  {
    if k < 5 {
      Entries0(k);
    } else if k < 10 {
      Entries1(k);
    } else if k < 36 {
      Entries2(k);
    } else if k < 68 {
      Entries3(k);
    } else if k < 106 {
      Entries4(k);
    } else if k < 145 {
      Entries5(k);
    } else if k < 174 {
      Entries6(k);
    } else if k < 205 {
      Entries7(k);
    } else if k < 224 {
      Entries8(k);
    } else {
      Entries9(k);
    }
  }

  function HuffmanCodes(): (codes: seq<Code>) {
    seq(257, s requires 0 <= s < 257 => CodeAt(s))
  }

  /** The table of the source is a good code. */
  lemma {:induction false} TableIsGood()
    ensures GoodCodes(HuffmanCodes())
  {
    forall k | 0 <= k < 257 ensures Entry(CodeAt, RowAt, SymbolAt, k) {
      Entries(k);
      assert TableEntry(k);
    }
    forall k | 0 <= k < 257 ensures RowEntry(RowAt, k) { TableRow(k); }
    assert CodeAt(256) == CodeIn(RowAt(256), 256);
    CanonicalIsGood(HuffmanCodes(), CodeAt, RowAt, SymbolAt);
  }
}
