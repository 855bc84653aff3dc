/** Header blocks may reach the decoder in pieces: CONTINUATION frames and read buffers cut them
    anywhere. The cuts do not matter. */
module HpackChunks {
  import opened Wrappers
  import opened Bits
  import opened IntegerCodec
  import opened HeaderTable
  import opened HeaderIndex
  import opened Hpack

  /** What more input does to a step: finished and failed steps stay as they are. */
  predicate Extends(r: StepResult, r': StepResult, more: seq<Byte>) {
    match r
    case Done(d, n, rest) => r' == Done(d, n, rest + more)
    case Fail(_, _) => r' == r
    case More(_) => true
  }

  lemma {:induction false} DecStringExtend(cb: Codebook, data: seq<Byte>, more: seq<Byte>)
    ensures var r, r' := DecString(cb, data), DecString(cb, data + more);
      (r.Decoded? ==> r' == Decoded(r.s, r.rest + more)) && (r.StrOverflow? ==> r'.StrOverflow?)
  {
    DecIntegerExtend(data, 7, more);
    var i := DecInteger(data, 7);
    if i.Int? && |i.rest| >= i.value {
      assert (i.rest + more)[..i.value] == i.rest[..i.value];
      assert (i.rest + more)[i.value..] == i.rest[i.value..] + more;
    }
  }

  lemma {:induction false} ValueExtend(cb: Codebook, h: Handler, d: Decoder, k: IndexType, idx: nat, name: Str,
                                       data: seq<Byte>, more: seq<Byte>)
    requires d.table.size < TWO32
    ensures var r := LiteralValue(cb, h, d, k, idx, name, data);
      Extends(r, LiteralValue(cb, h, d, k, idx, name, data + more), more) && (r.More? ==> r.d == d)
  {
    DecStringExtend(cb, data, more);
  }

  lemma {:induction false} LiteralExtend(cb: Codebook, h: Handler, d: Decoder, k: IndexType, data: seq<Byte>, more: seq<Byte>)
    requires d.table.size < TWO32 && data != []
    ensures var r := StepLiteral(cb, h, d, k, data);
      Extends(r, StepLiteral(cb, h, d, k, data + more), more) && (r.More? ==> r.d == d.(st := true))
  {
    DecIntegerExtend(data, PrefixLen(k), more);
    var i := DecInteger(data, PrefixLen(k));
    var d1 := d.(st := true);
    if i.Int? {
      if i.value > 0 {
        var e := Entry(cb.statics, d.table, i.value);
        if e.Some? { ValueExtend(cb, h, d1, k, i.value, e.value.name, i.rest, more); }
      } else {
        DecStringExtend(cb, i.rest, more);
        var s := DecString(cb, i.rest);
        if s.Decoded? { ValueExtend(cb, h, d1, k, 0, s.s, s.rest, more); }
      }
    }
  }

  function KindOf(b: Byte): (k: IndexType) {
    if b >= 64 then IndexedTrue else if b >= 16 then IndexedNever else IndexedFalse
  }

  /** The first byte is in the range of table size updates. */
  predicate IsUpdate(b: Byte) {
    32 <= b < 64
  }

  /** A step that needs more changes nothing but the mark that a field has begun, and repeats. */
  lemma {:induction false} StepExtend(cb: Codebook, h: Handler, d: Decoder, data: seq<Byte>, more: seq<Byte>)
    requires d.table.size < TWO32 && data != []
    ensures var r := Step(cb, h, d, data);
      && Extends(r, Step(cb, h, d, data + more), more)
      && (r.More? ==> r.d == (if IsUpdate(data[0]) then d else d.(st := true)))
      && (r.More? ==> Step(cb, h, r.d, data + more) == Step(cb, h, d, data + more))
  {
    var b := data[0];
    assert (data + more)[0] == b;
    if b >= 128 {
      DecIntegerExtend(data, 7, more);
    } else if IsUpdate(b) {
      DecIntegerExtend(data, 5, more);
    } else {
      LiteralExtend(cb, h, d, KindOf(b), data, more);
    }
  }

  /** Running over more data is resuming where the shorter run stopped. */
  lemma {:induction false} LoopSplit(cb: Codebook, h: Handler, limit: nat, d: Decoder, x: seq<Byte>, more: seq<Byte>)
    requires d.table.size < TWO32 && d.n < TWO32 && d.err == None && d.leftover == []
    ensures var d1 := DecodeLoop(cb, h, limit, d, x);
      && d1.table.size < TWO32 && d1.n < TWO32
      && DecodeLoop(cb, h, limit, d, x + more) ==
         if d1.err.Some? then d1 else DecodeLoop(cb, h, limit, d1.(leftover := []), d1.leftover + more)
    decreases |x|
  {
    if x == [] {
      assert x + more == more && [] + more == more;
    } else {
      StepProgress(cb, h, d, x);
      StepExtend(cb, h, d, x, more);
      var r := Step(cb, h, d, x);
      if r.More? {
        MoreSplit(cb, h, limit, d, x, more);
      } else if r.Done? {
        var d2 := if limit == 0 then r.d else r.d.(n := Plus32(r.d.n, r.size));
        if limit == 0 || Plus32(r.d.n, r.size) <= limit {
          LoopSplit(cb, h, limit, d2, r.rest, more);
        }
      }
    }
  }

  lemma {:induction false} MoreSplit(cb: Codebook, h: Handler, limit: nat, d: Decoder, x: seq<Byte>, more: seq<Byte>)
    requires d.table.size < TWO32 && d.n < TWO32 && d.err == None && d.leftover == []
    requires x != [] && Step(cb, h, d, x).More?
    ensures var d1 := Step(cb, h, d, x).d;
      && d1.table.size < TWO32 && d1.n < TWO32 && d1.err == None && d1.leftover == []
      && DecodeLoop(cb, h, limit, d, x + more) == DecodeLoop(cb, h, limit, d1, x + more)
  {
    StepExtend(cb, h, d, x, more);
  }

  /** After a call, a pending size change means that a size update was cut short. */
  lemma {:induction false} PendingUpdate(cb: Codebook, h: Handler, limit: nat, d: Decoder, x: seq<Byte>)
    requires d.table.size < TWO32 && d.n < TWO32 && d.err == None && d.leftover == []
    requires x != [] && (d.sizeChanged ==> IsUpdate(x[0]))
    ensures var d1 := DecodeLoop(cb, h, limit, d, x);
      d1.err == None && d1.sizeChanged ==> d1.leftover != [] && IsUpdate(d1.leftover[0])
    decreases |x|
  {
    StepProgress(cb, h, d, x);
    StepExtend(cb, h, d, x, []);
    var r := Step(cb, h, d, x);
    if r.Done? {
      ClearsChange(cb, h, d, x);
      var d2 := if limit == 0 then r.d else r.d.(n := Plus32(r.d.n, r.size));
      if limit == 0 || Plus32(r.d.n, r.size) <= limit {
        assert DecodeLoop(cb, h, limit, d, x) == DecodeLoop(cb, h, limit, d2, r.rest);
        if r.rest != [] { PendingUpdate(cb, h, limit, d2, r.rest); }
      }
    }
  }

  lemma {:induction false} ClearsChange(cb: Codebook, h: Handler, d: Decoder, x: seq<Byte>)
    requires d.table.size < TWO32 && x != [] && (d.sizeChanged ==> IsUpdate(x[0]))
    ensures var r := Step(cb, h, d, x); r.Done? ==> !r.d.sizeChanged
  {
  }

  /** Two calls with the parts of a block are one call with the whole. */
  lemma {:induction false} DecodeSplit(cb: Codebook, h: Handler, limit: nat, d: Decoder, a: seq<Byte>, b: seq<Byte>)
    requires d.table.size < TWO32 && d.n < TWO32
    ensures var d1 := Decode(cb, h, limit, d, a);
      d1.table.size < TWO32 && d1.n < TWO32 && Decode(cb, h, limit, d1, b) == Decode(cb, h, limit, d, a + b)
  {
    if a == [] {
      assert a + b == b;
    } else if b == [] {
      assert a + b == a;
      if d.err == None { LoopSplit(cb, h, limit, d.(leftover := []), d.leftover + a, []); }
    } else if d.err == None {
      var x := d.leftover + a;
      var d0 := d.(leftover := []);
      assert d.leftover + (a + b) == x + b;
      if !d.sizeChanged || IsUpdate(x[0]) {
        LoopSplit(cb, h, limit, d0, x, b);
        PendingUpdate(cb, h, limit, d0, x);
      }
    }
  }

  function Concat(chunks: seq<seq<Byte>>): (r: seq<Byte>) {
    if chunks == [] then [] else chunks[0] + Concat(chunks[1..])
  }

  /** Successive calls with the chunks of a block. */
  ghost function DecodeAll(cb: Codebook, h: Handler, limit: nat, d: Decoder, chunks: seq<seq<Byte>>): (r: Decoder)
    requires d.table.size < TWO32 && d.n < TWO32
    ensures r.table.size < TWO32 && r.n < TWO32
    decreases |chunks|
  {
    if chunks == [] then d
    else
      DecodeSplit(cb, h, limit, d, chunks[0], []);
      DecodeAll(cb, h, limit, Decode(cb, h, limit, d, chunks[0]), chunks[1..])
  }

  /** However a block is cut, the handler calls, the table, the size count, the sticky error and
      the leftover are those of a single call; so is the outcome of Reset. */
  lemma {:induction false} ChunkIndependence(cb: Codebook, h: Handler, limit: nat, d: Decoder, chunks: seq<seq<Byte>>)
    requires d.table.size < TWO32 && d.n < TWO32
    ensures DecodeAll(cb, h, limit, d, chunks) == Decode(cb, h, limit, d, Concat(chunks))
    decreases |chunks|
  {
    if chunks != [] {
      DecodeSplit(cb, h, limit, d, chunks[0], []);
      DecodeSplit(cb, h, limit, d, chunks[0], Concat(chunks[1..]));
      ChunkIndependence(cb, h, limit, Decode(cb, h, limit, d, chunks[0]), chunks[1..]);
    }
  }
}
