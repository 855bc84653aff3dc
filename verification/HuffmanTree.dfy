/** The 256-ary trie of the Huffman decoder and the decoder itself. Nodes live in an arena keyed
    by the bytes that lead to them, so `n.children[b]` of the node at path n is the entry at n + [b]. */
module HuffmanTree {
  import opened Wrappers
  import opened Bits
  import opened Huffman

  datatype Node = Inner | Leaf(sym: Byte, bits: nat)

  type Tree = map<seq<Byte>, Node>

  /** The word of s runs on below path p. */
  ghost predicate InnerAt(codes: seq<Code>, s: nat, p: seq<Byte>)
    requires s < |codes|
  {
    8 * |p| < |Word(codes, s)| && BitsOf(p) <= Word(codes, s)
  }

  /** The word of s ends within the last byte of path p. */
  ghost predicate LeafAt(codes: seq<Code>, s: nat, p: seq<Byte>)
    requires s < |codes|
  {
    8 * |p| - 8 < |Word(codes, s)| <= 8 * |p| && Word(codes, s) <= BitsOf(p)
  }

  ghost function LeafOf(codes: seq<Code>, s: nat, p: seq<Byte>): (n: Node)
    requires s < |codes| && LeafAt(codes, s, p)
  {
    Leaf(ByteOf(s), |Word(codes, s)| - (8 * |p| - 8))
  }

  /** Each entry is there on account of one of the first n symbols. */
  ghost predicate Sound(codes: seq<Code>, t: Tree, n: nat)
    requires n <= |codes|
  {
    forall p :: p in t ==>
      if t[p] == Inner then p == [] || exists s :: 0 <= s < n && InnerAt(codes, s, p)
      else exists s :: 0 <= s < n && LeafAt(codes, s, p) && t[p] == LeafOf(codes, s, p)
  }

  /** Each of the first n symbols has all its entries. */
  ghost predicate Full(codes: seq<Code>, t: Tree, n: nat)
    requires n <= |codes|
  {
    && [] in t && t[[]] == Inner
    && (forall s, p :: 0 <= s < n && InnerAt(codes, s, p) ==> p in t && t[p] == Inner)
    && (forall s, p :: 0 <= s < n && LeafAt(codes, s, p) ==> p in t && t[p] == LeafOf(codes, s, p))
  }

  /** No inner node lacks one of its 256 children. */
  ghost predicate NoMissingChild(t: Tree) {
    forall p, b: Byte :: p in t && t[p] == Inner ==> p + [b] in t
  }

  ghost predicate IsTrie(codes: seq<Code>, t: Tree)
    requires |codes| == 257
  {
    Sound(codes, t, 257) && Full(codes, t, 257) && NoMissingChild(t)
  }

  // ----- Two symbols never claim the same entry

  lemma {:induction false} NoWordAbove(codes: seq<Code>, s: nat, u: nat, p: seq<Byte>)
    requires WellSized(codes) && PrefixFree(codes) && s < 257 && u < 257
    requires InnerAt(codes, u, p)
    ensures !(Word(codes, s) <= BitsOf(p))
  {
    if s != u {
      assert !(Word(codes, s) <= Word(codes, u));
    }
  }

  lemma {:induction false} OneLeaf(codes: seq<Code>, s: nat, u: nat, p: seq<Byte>)
    requires WellSized(codes) && PrefixFree(codes) && s < 257 && u < 257
    requires LeafAt(codes, s, p) && LeafAt(codes, u, p)
    ensures s == u
  {
    WordUnique(codes, s, u, BitsOf(p));
  }

  // ----- Building the trie

  method NewHuffmanTree(codes: seq<Code>) returns (t: Tree)
    requires GoodCodes(codes)
    ensures IsTrie(codes, t)
  {
    t := map[[] := Inner];
    for i := 0 to 257
      invariant Sound(codes, t, i) && Full(codes, t, i)
    {
      t := InsertCode(codes, t, i);
    }
    EveryChildPresent(codes, t);
  }

  /** Creates the missing inner nodes for symbol i, then its leaves; no entry is overwritten. */
  method InsertCode(codes: seq<Code>, t0: Tree, i: nat) returns (t: Tree)
    requires WellSized(codes) && PrefixFree(codes) && i < 257
    requires Sound(codes, t0, i) && Full(codes, t0, i)
    ensures Sound(codes, t, i + 1) && Full(codes, t, i + 1)
  {
    t := t0;
    var cur: seq<Byte> := [];
    var x := codes[i];
    var bits := x.bits;
    ghost var w := Word(codes, i);
    while bits > 8
      invariant 1 <= bits && 8 * |cur| + bits == x.bits
      invariant BitsOf(cur) == w[..8 * |cur|]
      invariant cur in t && t[cur] == Inner
      invariant InnerGrowth(codes, t0, t, i, |cur|)
    {
      bits := bits - 8;
      var j: Byte := ShiftRight(x.code, bits) % 256;
      NextInner(codes, i, cur, bits, j);
      var child := cur + [j];
      GrowthStep(codes, t0, t, i, cur, j);
      if child !in t {
        t := t[child := Inner];
      }
      cur := child;
    }
    t := InsertLeaves(codes, t0, t, i, cur, bits);
  }

  /** t is t0 plus the inner nodes for symbol i down to the given depth. */
  ghost predicate InnerGrowth(codes: seq<Code>, t0: Tree, t: Tree, i: nat, depth: nat)
    requires i < |codes|
  {
    && (forall p :: p in t0 ==> p in t && t[p] == t0[p])
    && (forall p :: p in t ==> p in t0 || (InnerAt(codes, i, p) && t[p] == Inner))
    && (forall p :: InnerAt(codes, i, p) && |p| <= depth ==> p in t && t[p] == Inner)
  }

  lemma {:induction false} NextInner(codes: seq<Code>, i: nat, cur: seq<Byte>, bits: nat, j: Byte)
    requires i < |codes| && 8 * |cur| + 8 + bits == codes[i].bits && bits > 0
    requires j == ShiftRight(codes[i].code, bits) % 256
    requires BitsOf(cur) == Word(codes, i)[..8 * |cur|]
    ensures InnerAt(codes, i, cur + [j])
    ensures BitsOf(cur + [j]) == Word(codes, i)[..8 * |cur + [j]|]
  {
    NextOctet(codes[i].code, 8 * |cur|, bits, cur, j);
  }

  lemma {:induction false} NextOctet(code: nat, done: nat, bits: nat, cur: seq<Byte>, j: Byte)
    requires done == 8 * |cur| && j == ShiftRight(code, bits) % 256
    requires BitsOf(cur) == ToBits(code, done + 8 + bits)[..done]
    ensures BitsOf(cur + [j]) == ToBits(code, done + 8 + bits)[..done + 8]
  {
    BitsOfAppend(cur, j);
    SliceOfWord(code, done, 8, bits);
    ToBitsOfByte(ShiftRight(code, bits), 8);
    Glue(ToBits(code, done + 8 + bits), done, done + 8);
  }

  lemma {:induction false} Glue(w: seq<bool>, a: nat, b: nat)
    requires a <= b <= |w|
    ensures w[..a] + w[a..b] == w[..b]
  {
  }

  lemma {:induction false} GrowthStep(codes: seq<Code>, t0: Tree, t: Tree, i: nat, cur: seq<Byte>, j: Byte)
    requires WellSized(codes) && PrefixFree(codes) && i < 257 && Sound(codes, t0, i)
    requires InnerGrowth(codes, t0, t, i, |cur|) && InnerAt(codes, i, cur + [j])
    ensures var child := cur + [j];
      var t' := if child in t then t else t[child := Inner];
      t'[child] == Inner && InnerGrowth(codes, t0, t', i, |cur| + 1)
  {
    var child := cur + [j];
    if child in t0 && t0[child] != Inner {
      var s :| 0 <= s < i && LeafAt(codes, s, child) && t0[child] == LeafOf(codes, s, child);
      NoWordAbove(codes, s, i, child);
    }
    OneInnerPath(codes, i, child);
  }

  /** There is one inner path of each length. */
  lemma {:induction false} OneInnerPath(codes: seq<Code>, i: nat, q: seq<Byte>)
    requires i < |codes| && InnerAt(codes, i, q)
    ensures forall p :: InnerAt(codes, i, p) && |p| == |q| ==> p == q
  {
    forall p | InnerAt(codes, i, p) && |p| == |q| ensures p == q {
      assert BitsOf(p) == Word(codes, i)[..8 * |p|] == BitsOf(q);
      BitsOfInjective(p, q);
    }
  }

  method InsertLeaves(codes: seq<Code>, ghost t0: Tree, t1: Tree, i: nat, cur: seq<Byte>, bits: nat)
    returns (t: Tree)
    requires WellSized(codes) && PrefixFree(codes) && i < 257
    requires Sound(codes, t0, i) && Full(codes, t0, i)
    requires InnerGrowth(codes, t0, t1, i, |cur|)
    requires 1 <= bits <= 8 && 8 * |cur| + bits == codes[i].bits
    requires BitsOf(cur) == Word(codes, i)[..8 * |cur|]
    ensures Sound(codes, t, i + 1) && Full(codes, t, i + 1)
  {
    t := t1;
    var x := codes[i];
    var shift := 8 - bits;
    var start: Byte := ShiftLeft(x.code, shift) % 256;
    var end := ShiftLeft(1, shift);
    LeafStartBound(x.code, bits);
    var j := start;
    while j < start + end
      invariant start <= j <= start + end <= 256
      invariant LeafGrowth(codes, t1, t, i, cur, bits, start, j)
      decreases start + end - j
    {
      var b: Byte := j;
      LeafRange(codes, i, cur, bits, b);
      FreshLeaf(codes, t0, t1, i, cur, b);
      LeafStep(codes, t1, t, i, cur, bits, start, b);
      assert cur + [b] !in t;
      t := t[cur + [b] := Leaf(ByteOf(i), bits)];
      j := j + 1;
    }
    LeavesComplete(codes, t, i, cur, bits, start, Leaf(ByteOf(i), bits));
    Conclude(codes, t0, t1, t, i, |cur|, Leaf(ByteOf(i), bits));
  }

  /** t is t1 plus the leaves of symbol i for the bytes from start up to j. */
  ghost predicate LeafGrowth(codes: seq<Code>, t1: Tree, t: Tree, i: nat, cur: seq<Byte>, bits: nat, start: nat, j: nat)
    requires i < |codes|
  {
    var leaf := Leaf(ByteOf(i), bits);
    && (forall p :: p in t1 ==> p in t && t[p] == t1[p])
    && (forall p :: p in t && p !in t1 ==>
          LeafAt(codes, i, p) && t[p] == leaf && |p| == |cur| + 1 && p[|cur|] < j)
    && (forall b: Byte :: start <= b < j ==> cur + [b] in t && t[cur + [b]] == leaf)
  }

  lemma {:induction false} LeafStep(codes: seq<Code>, t1: Tree, t: Tree, i: nat, cur: seq<Byte>, bits: nat,
                                    start: nat, b: Byte)
    requires i < |codes| && LeafGrowth(codes, t1, t, i, cur, bits, start, b)
    requires LeafAt(codes, i, cur + [b]) && cur + [b] !in t1
    ensures cur + [b] !in t
    ensures LeafGrowth(codes, t1, t[cur + [b] := Leaf(ByteOf(i), bits)], i, cur, bits, start, b + 1)
  {
    assert (cur + [b])[|cur|] == b;
  }

  /** The low bits of the code, left-aligned in a byte, leave the rest of the byte free. */
  lemma {:induction false} LeafStartBound(code: nat, bits: nat)
    requires 1 <= bits <= 8
    ensures ShiftLeft(code, 8 - bits) % 256 == LeafStart(code, bits)
    ensures ShiftLeft(code, 8 - bits) % 256 + ShiftLeft(1, 8 - bits) <= 256
  {
    var shift := 8 - bits;
    var tail := ToBits(code, bits);
    var c := FromBits(tail);
    FromBitsBound(tail);
    ToFromBits(tail);
    assert Pow2(8) == 256;
    ShiftLeftBound(c, 0, bits, shift);
    ToBitsAppend(code, bits, 0, shift);
    ToBitsAppend(c, bits, 0, shift);
    ToBitsOfByte(ShiftLeft(code, shift), 8);
    assert bits + shift == 8;
    ToBitsInjective(ShiftLeft(code, shift) % 256, ShiftLeft(c, shift), 8);
    ShiftLeftOne(shift);
    ShiftLeftBound(c, Pow2(shift) - 1, bits, shift);
  }

  /** The bytes of the leaf range are exactly those that start with the last bits of the word. */
  lemma {:induction false} LeafByte(code: nat, bits: nat, b: Byte)
    requires 1 <= bits <= 8
    ensures var start := LeafStart(code, bits);
      start <= b < start + ShiftLeft(1, 8 - bits) <==> ToBits(b, 8)[..bits] == ToBits(code, bits)
  {
    var shift := 8 - bits;
    var tail := ToBits(code, bits);
    FromBitsBound(tail);
    ToFromBits(tail);
    ShiftLeftOne(shift);
    assert Pow2(8) == 256 && bits + shift == 8;
    Aligned(FromBits(tail), bits, shift, b);
  }

  function LeafStart(code: nat, bits: nat): (start: nat)
    requires bits <= 8
  {
    ShiftLeft(FromBits(ToBits(code, bits)), 8 - bits)
  }

  lemma {:induction false} LeafRange(codes: seq<Code>, i: nat, cur: seq<Byte>, bits: nat, b: Byte)
    requires i < |codes| && 1 <= bits <= 8 && 8 * |cur| + bits == codes[i].bits
    requires BitsOf(cur) == Word(codes, i)[..8 * |cur|]
    ensures var start := LeafStart(codes[i].code, bits);
      start <= b < start + ShiftLeft(1, 8 - bits) <==> LeafAt(codes, i, cur + [b])
  {
    var tail := ToBits(codes[i].code, bits);
    LeafByte(codes[i].code, bits, b);
    BitsOfAppend(cur, b);
    assert Word(codes, i) == BitsOf(cur) + tail by { ToBitsSplit(codes[i].code, 8 * |cur|, bits); }
    SamePrefixLength(BitsOf(cur), tail, ToBits(b, 8));
  }

  lemma {:induction false} SamePrefixLength(x: seq<bool>, tail: seq<bool>, y: seq<bool>)
    requires |tail| <= |y|
    ensures x + tail <= x + y <==> y[..|tail|] == tail
  {
    var n := |x + tail|;
    assert (x + y)[..n] == x + y[..|tail|];
    assert (x + y[..|tail|])[|x|..] == y[..|tail|] && (x + tail)[|x|..] == tail;
  }

  lemma {:induction false} FreshLeaf(codes: seq<Code>, t0: Tree, t1: Tree, i: nat, cur: seq<Byte>, b: Byte)
    requires WellSized(codes) && PrefixFree(codes) && i < 257 && Sound(codes, t0, i)
    requires InnerGrowth(codes, t0, t1, i, |cur|) && LeafAt(codes, i, cur + [b])
    ensures cur + [b] !in t1
  {
    var p := cur + [b];
    if p in t1 {
      if p !in t0 {
        NoWordAbove(codes, i, i, p);
      } else if t0[p] == Inner {
        var s :| 0 <= s < i && InnerAt(codes, s, p);
        NoWordAbove(codes, i, s, p);
      } else {
        var s :| 0 <= s < i && LeafAt(codes, s, p) && t0[p] == LeafOf(codes, s, p);
        OneLeaf(codes, s, i, p);
      }
    }
  }

  lemma {:induction false} LeavesComplete(codes: seq<Code>, t: Tree, i: nat, cur: seq<Byte>, bits: nat,
                                          start: Byte, leaf: Node)
    requires i < |codes| && 1 <= bits <= 8 && 8 * |cur| + bits == codes[i].bits
    requires BitsOf(cur) == Word(codes, i)[..8 * |cur|]
    requires start == LeafStart(codes[i].code, bits)
    requires forall b: Byte :: start <= b < start + ShiftLeft(1, 8 - bits) ==> cur + [b] in t && t[cur + [b]] == leaf
    ensures forall p :: LeafAt(codes, i, p) ==> p in t && t[p] == leaf && |p| == |cur| + 1
  {
    forall p | LeafAt(codes, i, p) ensures p in t && t[p] == leaf && |p| == |cur| + 1 {
      var q, b := p[..|p| - 1], p[|p| - 1];
      assert p == q + [b];
      BitsOfAppend(q, b);
      assert BitsOf(q) == Word(codes, i)[..8 * |q|] by {
        assert BitsOf(q) == BitsOf(p)[..8 * |q|];
      }
      BitsOfInjective(q, cur);
      LeafRange(codes, i, cur, bits, b);
    }
  }

  lemma {:induction false} Conclude(codes: seq<Code>, t0: Tree, t1: Tree, t: Tree, i: nat,
                                    depth: nat, leaf: Node)
    requires i < 257 == |codes| && Sound(codes, t0, i) && Full(codes, t0, i)
    requires InnerGrowth(codes, t0, t1, i, depth) && 8 * depth + 8 >= |Word(codes, i)|
    requires forall p :: p in t1 ==> p in t && t[p] == t1[p]
    requires forall p :: p in t && p !in t1 ==> LeafAt(codes, i, p) && t[p] == leaf
    requires leaf.Leaf? && forall p :: LeafAt(codes, i, p) ==> p in t && t[p] == leaf && leaf == LeafOf(codes, i, p)
    ensures Sound(codes, t, i + 1) && Full(codes, t, i + 1)
  {
    forall p | p in t
      ensures if t[p] == Inner then p == [] || exists s :: 0 <= s < i + 1 && InnerAt(codes, s, p)
              else exists s :: 0 <= s < i + 1 && LeafAt(codes, s, p) && t[p] == LeafOf(codes, s, p)
    {
      if p !in t1 {
        assert LeafAt(codes, i, p) && t[p] == LeafOf(codes, i, p);
      } else if p !in t0 {
        assert InnerAt(codes, i, p);
      } else if t[p] == Inner && p != [] {
        var s :| 0 <= s < i && InnerAt(codes, s, p);
      } else if t[p] != Inner {
        var s :| 0 <= s < i && LeafAt(codes, s, p) && t[p] == LeafOf(codes, s, p);
      }
    }
    forall s, p | 0 <= s < i + 1 && InnerAt(codes, s, p) ensures p in t && t[p] == Inner {
      if s == i { assert p in t1; } else { assert p in t0 && p in t1; }
    }
    forall s, p | 0 <= s < i + 1 && LeafAt(codes, s, p) ensures p in t && t[p] == LeafOf(codes, s, p) {
      if s != i { assert p in t0 && p in t1; }
    }
  }

  /** Completeness of the code leaves no gap: below an inner node, every byte either ends
      some word or continues one. */
  lemma {:induction false} EveryChildPresent(codes: seq<Code>, t: Tree)
    requires GoodCodes(codes) && Sound(codes, t, 257) && Full(codes, t, 257)
    ensures NoMissingChild(t)
  {
    forall p, b: Byte | p in t && t[p] == Inner ensures p + [b] in t {
      var u: nat := 0;
      if p != [] {
        u :| 0 <= u < 257 && InnerAt(codes, u, p);
      }
      assert InnerAt(codes, u, p);
      ChildPresent(codes, t, p, b, u);
    }
  }

  lemma {:induction false} ChildPresent(codes: seq<Code>, t: Tree, p: seq<Byte>, b: Byte, u: nat)
    requires GoodCodes(codes) && Full(codes, t, 257) && u < 257 && InnerAt(codes, u, p)
    ensures p + [b] in t
  {
    var q := p + [b];
    var long := BitsOf(q) + Repeat(false, 30);
    assert HasWord(codes, long);
    var s :| 0 <= s < 257 && Word(codes, s) <= long;
    BitsOfAppend(p, b);
    Comparable(Word(codes, s), BitsOf(p), long);
    NoWordAbove(codes, s, u, p);
    Comparable(Word(codes, s), BitsOf(q), long);
    assert InnerAt(codes, s, q) || LeafAt(codes, s, q);
  }

  // ----- Decoding

  const TWO64: nat := 0x1_0000_0000_0000_0000

  /** The byte-wise decoder returns what decoding bit by bit returns, for every input. */
  method HuffmanDecode(codes: seq<Code>, t: Tree, dst: seq<Byte>, src: seq<Byte>) returns (r: seq<Byte>)
    requires GoodCodes(codes) && IsTrie(codes, t)
    ensures r == dst + DecodeBits(codes, BitsOf(src))
  {
    r := dst;
    var n: seq<Byte> := [];
    var cur: nat := 0;
    var nbits: nat := 0;
    ghost var goal := dst + DecodeBits(codes, BitsOf(src));
    assert src[0..] == src && [] + BitsOf(src) == BitsOf(src);
    for i := 0 to |src|
      invariant nbits < 8 && n in t && t[n] == Inner
      invariant r + DecodeBits(codes, Pending(n, cur, nbits) + BitsOf(src[i..])) == goal
    {
      ShiftIn(n, cur, nbits, src, i);
      cur := (cur * 256 + src[i]) % TWO64;
      nbits := nbits + 8;
      r, n, nbits := DecodeWholeBytes(codes, t, r, n, cur, nbits, BitsOf(src[i + 1..]));
    }
    assert BitsOf(src[|src|..]) == [];
    assert Pending(n, cur, nbits) + [] == Pending(n, cur, nbits);
    r := DecodeRemainder(codes, t, r, n, cur, nbits);
  }

  /** Walks the trie while at least eight bits are pending. */
  method DecodeWholeBytes(codes: seq<Code>, t: Tree, dst: seq<Byte>, path: seq<Byte>, cur: nat, have: nat,
                          ghost rest: seq<bool>)
    returns (r: seq<Byte>, n: seq<Byte>, nbits: nat)
    requires GoodCodes(codes) && IsTrie(codes, t) && have < 16 && path in t && t[path] == Inner
    ensures nbits < 8 && n in t && t[n] == Inner
    ensures r + DecodeBits(codes, Pending(n, cur, nbits) + rest) ==
            dst + DecodeBits(codes, Pending(path, cur, have) + rest)
  {
    r, n, nbits := dst, path, have;
    while nbits >= 8
      invariant nbits < 16 && n in t && t[n] == Inner
      invariant r + DecodeBits(codes, Pending(n, cur, nbits) + rest) ==
                dst + DecodeBits(codes, Pending(path, cur, have) + rest)
      decreases nbits
    {
      var b: Byte := ShiftRight(cur, nbits - 8) % 256;
      var child := n + [b];
      match t[child]
      case Leaf(sym, bits) =>
        EmitLeaf(codes, t, n, cur, nbits, b, rest);
        Assoc(r, [sym], DecodeBits(codes, Pending([], cur, nbits - bits) + rest));
        r := r + [sym];
        nbits := nbits - bits;
        n := [];
      case Inner =>
        TakeOctet(n, cur, nbits, b);
        nbits := nbits - 8;
        n := child;
    }
  }

  /** Decodes the words that end within the last bits; an incomplete one is dropped. */
  method DecodeRemainder(codes: seq<Code>, t: Tree, dst: seq<Byte>, path: seq<Byte>, cur: nat, have: nat)
    returns (r: seq<Byte>)
    requires GoodCodes(codes) && IsTrie(codes, t) && have < 8 && path in t && t[path] == Inner
    ensures r == dst + DecodeBits(codes, Pending(path, cur, have))
  {
    r := dst;
    var n, nbits := path, have;
    while nbits > 0
      invariant 0 <= nbits < 8 && n in t && t[n] == Inner
      invariant r + DecodeBits(codes, Pending(n, cur, nbits)) == dst + DecodeBits(codes, Pending(path, cur, have))
      decreases nbits
    {
      var b: Byte := ShiftLeft(cur, 8 - nbits) % 256;
      var child := n + [b];
      if t[child] == Inner || t[child].bits > nbits {
        NothingLeft(codes, t, n, cur, nbits, b);
        return;
      }
      EmitLast(codes, t, n, cur, nbits, b);
      Assoc(r, [t[child].sym], DecodeBits(codes, Pending([], cur, nbits - t[child].bits)));
      r := r + [t[child].sym];
      nbits := nbits - t[child].bits;
      n := [];
    }
    InnerDecodesToNothing(codes, t, n, Pending(n, cur, 0));
  }

  /** The bits read but not yet decoded: the path walked and the low nbits of cur. */
  function Pending(n: seq<Byte>, cur: nat, nbits: nat): (b: seq<bool>) {
    BitsOf(n) + ToBits(cur, nbits)
  }

  lemma {:induction false} ShiftIn(n: seq<Byte>, cur: nat, nbits: nat, src: seq<Byte>, i: nat)
    requires i < |src| && nbits < 8
    ensures Pending(n, cur, nbits) + BitsOf(src[i..]) ==
            Pending(n, (cur * 256 + src[i]) % TWO64, nbits + 8) + BitsOf(src[i + 1..])
  {
    var b := src[i];
    assert src[i..] == [b] + src[i + 1..];
    BitsOfConcat([b], src[i + 1..]);
    assert [b][..0] == [];
    assert BitsOf([b]) == ToBits(b, 8);
    ShiftInBits(cur, nbits, b);
    var x, y, z := BitsOf(n), ToBits(cur, nbits), ToBits(b, 8);
    var rest := BitsOf(src[i + 1..]);
    assert (x + y) + (z + rest) == (x + (y + z)) + rest;
  }

  lemma {:induction false} ShiftInBits(cur: nat, nbits: nat, b: Byte)
    requires nbits < 8
    ensures ToBits((cur * 256 + b) % TWO64, nbits + 8) == ToBits(cur, nbits) + ToBits(b, 8)
  {
    assert Pow2(8) == 256;
    assert ShiftLeft(cur, 8) == 256 * cur;
    ToBitsAppend(cur, nbits, b, 8);
    var x := cur * 256 + b;
    var q, y := x / TWO64, x % TWO64;
    ShiftLeft64(q);
    ToBitsLow(q, y, nbits + 8, 64);
  }

  lemma {:induction false} ShiftLeft64(q: nat)
    ensures ShiftLeft(q, 64) == TWO64 * q
  {
    ShiftLeftTwice(q, 8, 8);
    ShiftLeftTwice(q, 16, 16);
    ShiftLeftTwice(q, 32, 32);
    var a := ShiftLeft(q, 8);
    assert a == 256 * q;
    assert ShiftLeft(a, 8) == 256 * a;
    Shift16(q);
    Shift16(ShiftLeft(q, 16));
    Shift16(ShiftLeft(q, 32));
    Shift16(ShiftLeft(ShiftLeft(q, 32), 16));
    ShiftLeftTwice(ShiftLeft(q, 32), 16, 16);
  }

  lemma {:induction false} Shift16(q: nat)
    ensures ShiftLeft(q, 16) == 65536 * q
  {
    ShiftLeftTwice(q, 8, 8);
    assert ShiftLeft(q, 8) == 256 * q;
    assert ShiftLeft(256 * q, 8) == 256 * (256 * q);
  }

  lemma {:induction false} TakeOctet(n: seq<Byte>, cur: nat, nbits: nat, b: Byte)
    requires nbits >= 8 && b == ShiftRight(cur, nbits - 8) % 256
    ensures Pending(n, cur, nbits) == Pending(n + [b], cur, nbits - 8)
  {
    ToBitsSplit(cur, 8, nbits - 8);
    ToBitsOfByte(ShiftRight(cur, nbits - 8), 8);
    BitsOfAppend(n, b);
    Assoc(BitsOf(n), ToBits(b, 8), ToBits(cur, nbits - 8));
  }

  lemma {:induction false} FindLeaf(codes: seq<Code>, t: Tree, p: seq<Byte>) returns (s: nat)
    requires WellSized(codes) && IsTrie(codes, t) && p in t && t[p].Leaf?
    ensures s < 257 && LeafAt(codes, s, p) && t[p] == LeafOf(codes, s, p) && 1 <= t[p].bits <= 8
  {
    s :| 0 <= s < 257 && LeafAt(codes, s, p) && t[p] == LeafOf(codes, s, p);
  }

  /** A leaf below the current node is the next code word. */
  lemma {:induction false} LeafWord(codes: seq<Code>, s: nat, n: seq<Byte>, cur: nat, nbits: nat, b: Byte)
    requires s < |codes| && LeafAt(codes, s, n + [b]) && LeafOf(codes, s, n + [b]).bits <= nbits
    requires BitsOf(n + [b]) <= Pending(n, cur, nbits) || Pending(n, cur, nbits) <= BitsOf(n + [b])
    ensures Pending(n, cur, nbits) == Word(codes, s) + ToBits(cur, nbits - LeafOf(codes, s, n + [b]).bits)
  {
    SplitPending(n, cur, nbits, Word(codes, s), BitsOf(n + [b]), LeafOf(codes, s, n + [b]).bits);
  }

  lemma {:induction false} SplitPending(n: seq<Byte>, cur: nat, nbits: nat, w: seq<bool>, c: seq<bool>, bits: nat)
    requires bits <= nbits && |w| == 8 * |n| + bits && w <= c
    requires c <= Pending(n, cur, nbits) || Pending(n, cur, nbits) <= c
    ensures Pending(n, cur, nbits) == w + ToBits(cur, nbits - bits)
  {
    var all := Pending(n, cur, nbits);
    assert w == all[..|w|];
    ToBitsSplit(cur, bits, nbits - bits);
    assert all[|w|..] == ToBits(cur, nbits)[bits..];
  }

  lemma {:induction false} EmitLeaf(codes: seq<Code>, t: Tree, n: seq<Byte>, cur: nat, nbits: nat, b: Byte, rest: seq<bool>)
    requires GoodCodes(codes) && IsTrie(codes, t) && n in t && t[n] == Inner
    requires 8 <= nbits < 16 && b == ShiftRight(cur, nbits - 8) % 256 && t[n + [b]].Leaf?
    ensures var leaf := t[n + [b]];
      1 <= leaf.bits <= 8 &&
      DecodeBits(codes, Pending(n, cur, nbits) + rest) ==
      [leaf.sym] + DecodeBits(codes, Pending([], cur, nbits - leaf.bits) + rest)
  {
    TakeOctet(n, cur, nbits, b);
    var leaf := t[n + [b]];
    var s := FindLeaf(codes, t, n + [b]);
    LeafWord(codes, s, n, cur, nbits, b);
    var low := ToBits(cur, nbits - leaf.bits);
    assert Pending([], cur, nbits - leaf.bits) == low;
    Assoc(Word(codes, s), low, rest);
    DecodeWord(codes, s, low + rest);
  }

  lemma {:induction false} LastOctet(n: seq<Byte>, cur: nat, nbits: nat, b: Byte)
    requires nbits < 8 && b == ShiftLeft(cur, 8 - nbits) % 256
    ensures BitsOf(n + [b]) == Pending(n, cur, nbits) + Repeat(false, 8 - nbits)
  {
    ToBitsOfByte(ShiftLeft(cur, 8 - nbits), 8);
    ToBitsAppend(cur, nbits, 0, 8 - nbits);
    ToBitsZero(8 - nbits);
    BitsOfAppend(n, b);
    Assoc(BitsOf(n), ToBits(cur, nbits), Repeat(false, 8 - nbits));
  }

  lemma {:induction false} EmitLast(codes: seq<Code>, t: Tree, n: seq<Byte>, cur: nat, nbits: nat, b: Byte)
    requires GoodCodes(codes) && IsTrie(codes, t) && n in t && t[n] == Inner
    requires nbits < 8 && b == ShiftLeft(cur, 8 - nbits) % 256
    requires t[n + [b]].Leaf? && t[n + [b]].bits <= nbits
    ensures var leaf := t[n + [b]];
      1 <= leaf.bits &&
      DecodeBits(codes, Pending(n, cur, nbits)) == [leaf.sym] + DecodeBits(codes, Pending([], cur, nbits - leaf.bits))
  {
    LastOctet(n, cur, nbits, b);
    var leaf := t[n + [b]];
    var s := FindLeaf(codes, t, n + [b]);
    LeafWord(codes, s, n, cur, nbits, b);
    assert Pending([], cur, nbits - leaf.bits) == ToBits(cur, nbits - leaf.bits);
    DecodeWord(codes, s, ToBits(cur, nbits - leaf.bits));
  }

  /** Above an inner node no code word has ended. */
  lemma {:induction false} InnerDecodesToNothing(codes: seq<Code>, t: Tree, p: seq<Byte>, b: seq<bool>)
    requires GoodCodes(codes) && IsTrie(codes, t) && p in t && t[p] == Inner && b <= BitsOf(p)
    ensures DecodeBits(codes, b) == []
  {
    var u: nat := 0;
    if p != [] {
      u :| 0 <= u < 257 && InnerAt(codes, u, p);
    }
    assert InnerAt(codes, u, p);
    forall s | 0 <= s < 257 ensures !(Word(codes, s) <= b) {
      NoWordAbove(codes, s, u, p);
    }
  }

  lemma {:induction false} NothingLeft(codes: seq<Code>, t: Tree, n: seq<Byte>, cur: nat, nbits: nat, b: Byte)
    requires GoodCodes(codes) && IsTrie(codes, t) && n in t && t[n] == Inner
    requires nbits < 8 && b == ShiftLeft(cur, 8 - nbits) % 256
    requires t[n + [b]] == Inner || t[n + [b]].bits > nbits
    ensures DecodeBits(codes, Pending(n, cur, nbits)) == []
  {
    LastOctet(n, cur, nbits, b);
    var p := n + [b];
    var all := Pending(n, cur, nbits);
    if t[p] == Inner {
      InnerDecodesToNothing(codes, t, p, all);
    } else {
      var s :| 0 <= s < 257 && LeafAt(codes, s, p) && t[p] == LeafOf(codes, s, p);
      forall u | 0 <= u < 257 ensures !(Word(codes, u) <= all) {
        if Word(codes, u) <= BitsOf(p) { WordUnique(codes, s, u, BitsOf(p)); }
      }
    }
  }
}
