/** What the decoder guarantees on any input, valid or not: its table stays within the limit that was announced,
    its field list within the limit it was given, and only entries of the tables are handed over by index. */
module HpackLimits {
  import opened Wrappers
  import opened Bits
  import opened IntegerCodec
  import opened HeaderTable
  import opened HeaderIndex
  import opened Hpack

  // ----- The table

  /** The table respects its own maximum, and that the announced limit. */
  predicate Bounded(d: Decoder) {
    && d.table.maxSize <= d.maxSize && d.table.size <= d.table.maxSize && Consistent(d.table)
  }

  lemma {:induction false} EvictLoopBounded(s: seq<Field>, size: nat, max: nat)
    requires size == Sum32(s)
    ensures var (r, n) := EvictLoop(s, size, max); n == Sum32(r) && n <= max
  {
    if size > max && s != [] { EvictLoopBounded(s[1..], Minus32(size, HeaderFieldSize(s[0])), max); }
  }

  lemma {:induction false} SetMaxBounded(t: Table, max: nat)
    requires Consistent(t) && t.size <= t.maxSize
    ensures var r := SetMax(t, max); Consistent(r) && r.size <= r.maxSize == max
  {
    EvictLoopBounded(t.entries, t.size, max);
  }

  lemma {:induction false} AddBounded(t: Table, f: Field)
    requires Consistent(t) && t.size <= t.maxSize
    ensures var r := Add(t, f); Consistent(r) && r.size <= r.maxSize == t.maxSize
  {
    Sum32Append(t.entries, f);
    EvictLoopBounded(t.entries + [f], Plus32(t.size, HeaderFieldSize(f)), t.maxSize);
  }

  lemma {:induction false} ValueBounded(cb: Codebook, h: Handler, d: Decoder, k: IndexType, idx: nat, name: Str, data: seq<Byte>)
    requires d.table.size < TWO32 && Bounded(d)
    ensures var r := LiteralValue(cb, h, d, k, idx, name, data).d;
      Bounded(r) && r.maxSize == d.maxSize && r.table.maxSize == d.table.maxSize && r.st == d.st
  {
    var s := DecString(cb, data);
    if s.Decoded? { AddBounded(d.table, Field(name, s.s)); }
  }

  lemma {:induction false} LiteralBounded(cb: Codebook, h: Handler, d: Decoder, k: IndexType, data: seq<Byte>)
    requires d.table.size < TWO32 && Bounded(d)
    ensures var r := StepLiteral(cb, h, d, k, data).d;
      Bounded(r) && r.maxSize == d.maxSize && r.table.maxSize == d.table.maxSize && r.st
  {
    var i, d1 := DecInteger(data, PrefixLen(k)), d.(st := true);
    if i.Int? {
      if i.value > 0 {
        var e := Entry(cb.statics, d.table, i.value);
        if e.Some? { ValueBounded(cb, h, d1, k, i.value, e.value.name, i.rest); }
      } else {
        var s := DecString(cb, i.rest);
        if s.Decoded? { ValueBounded(cb, h, d1, k, 0, s.s, s.rest); }
      }
    }
  }

  /** One instruction keeps the bounds; after a field of the block none changes the table's maximum any more. */
  lemma {:induction false} StepBounded(cb: Codebook, h: Handler, d: Decoder, data: seq<Byte>)
    requires d.table.size < TWO32 && data != [] && Bounded(d)
    ensures var r := Step(cb, h, d, data).d;
      && Bounded(r) && r.maxSize == d.maxSize
      && (d.st ==> r.st && r.table.maxSize == d.table.maxSize)
      && (data[0] < 32 || data[0] >= 64 ==> r.st)
  {
    var b := data[0];
    if b >= 128 {
    } else if 32 <= b < 64 {
      if DecInteger(data, 5).Int? { SetMaxBounded(d.table, Low32(DecInteger(data, 5).value)); }
    } else {
      LiteralBounded(cb, h, d, if b >= 64 then IndexedTrue else if b >= 16 then IndexedNever else IndexedFalse, data);
    }
  }

  lemma {:induction false} LoopBounded(cb: Codebook, h: Handler, limit: nat, d: Decoder, data: seq<Byte>)
    requires d.table.size < TWO32 && d.n < TWO32 && Bounded(d)
    ensures var r := DecodeLoop(cb, h, limit, d, data);
      && Bounded(r) && r.maxSize == d.maxSize
      && (d.st ==> r.st && r.table.maxSize == d.table.maxSize)
    decreases |data|
  {
    if data != [] {
      StepProgress(cb, h, d, data);
      StepBounded(cb, h, d, data);
      var s := Step(cb, h, d, data);
      if s.Done? {
        var m := Plus32(s.d.n, s.size);
        if limit == 0 {
          LoopBounded(cb, h, limit, s.d, s.rest);
        } else if m <= limit {
          LoopBounded(cb, h, limit, s.d.(n := m), s.rest);
        }
      }
    }
  }

  /** Whatever bytes arrive: the table's size is at most its maximum, and that at most the limit announced. Once
      a block has had a field, the rest of it cannot change the maximum. */
  lemma {:induction false} TableBounded(cb: Codebook, h: Handler, limit: nat, d: Decoder, block: seq<Byte>)
    requires d.table.size < TWO32 && d.n < TWO32 && Bounded(d)
    ensures var r := Decode(cb, h, limit, d, block);
      && r.table.size <= r.table.maxSize <= r.maxSize == d.maxSize && Bounded(r)
      && (d.st ==> r.table.maxSize == d.table.maxSize)
  {
    if block != [] { LoopBounded(cb, h, limit, d.(leftover := []), d.leftover + block); }
  }

  /** The same for the calls between blocks. */
  lemma {:induction false} LimitBounded(d: Decoder, max: nat)
    requires d.table.size < TWO32 && Bounded(d) && d.table.maxSize <= d.maxSizeLimit
    ensures var r := DecSetMax(d, max); Bounded(r) && r.maxSize == max && r.table.maxSize <= r.maxSizeLimit
    ensures Bounded(Reset(d).0) && Bounded(NewDecoder(max))
  {
    SetMaxBounded(d.table, max);
  }

  // ----- The length of the field list

  /** The octets that the fields of the data count, without a limit. */
  ghost function Counted(cb: Codebook, h: Handler, d: Decoder, data: seq<Byte>): (n: nat)
    requires d.table.size < TWO32
    decreases |data|
  {
    if data == [] then 0
    else
      StepProgress(cb, h, d, data);
      var s := Step(cb, h, d, data);
      if s.Done? then s.size + Counted(cb, h, s.d, s.rest) else 0
  }

  function WithN(s: StepResult, n: nat): (r: StepResult) {
    match s
    case More(d) => More(d.(n := n))
    case Fail(d, e) => Fail(d.(n := n), e)
    case Done(d, size, rest) => Done(d.(n := n), size, rest)
  }

  lemma {:induction false} LiteralIgnoresN(cb: Codebook, h: Handler, d: Decoder, k: IndexType, data: seq<Byte>, n: nat)
    requires d.table.size < TWO32
    ensures StepLiteral(cb, h, d.(n := n), k, data) == WithN(StepLiteral(cb, h, d, k, data), n)
    ensures StepLiteral(cb, h, d, k, data).Fail? ==> StepLiteral(cb, h, d, k, data).error != TooLarge
  {
    var i, d1 := DecInteger(data, PrefixLen(k)), d.(st := true);
    assert d.(n := n).(st := true) == d1.(n := n);
    if i.Int? {
      if i.value > 0 {
        var e := Entry(cb.statics, d.table, i.value);
        if e.Some? { ValueIgnoresN(cb, h, d1, k, i.value, e.value.name, i.rest, n); }
      } else {
        var s := DecString(cb, i.rest);
        if s.Decoded? { ValueIgnoresN(cb, h, d1, k, 0, s.s, s.rest, n); }
      }
    }
  }

  lemma {:induction false} ValueIgnoresN(cb: Codebook, h: Handler, d: Decoder, k: IndexType, idx: nat, name: Str, data: seq<Byte>, n: nat)
    requires d.table.size < TWO32
    ensures LiteralValue(cb, h, d.(n := n), k, idx, name, data) == WithN(LiteralValue(cb, h, d, k, idx, name, data), n)
    ensures LiteralValue(cb, h, d, k, idx, name, data).Fail? ==> LiteralValue(cb, h, d, k, idx, name, data).error != TooLarge
  {
  }

  lemma {:induction false} StepIgnoresN(cb: Codebook, h: Handler, d: Decoder, data: seq<Byte>, n: nat)
    requires d.table.size < TWO32 && data != []
    ensures Step(cb, h, d.(n := n), data) == WithN(Step(cb, h, d, data), n)
    ensures Step(cb, h, d, data).Fail? ==> Step(cb, h, d, data).error != TooLarge
  {
    var b := data[0];
    if b < 128 && !(32 <= b < 64) {
      LiteralIgnoresN(cb, h, d, if b >= 64 then IndexedTrue else if b >= 16 then IndexedNever else IndexedFalse, data, n);
    }
  }

  lemma {:induction false} CountedIgnoresN(cb: Codebook, h: Handler, d: Decoder, data: seq<Byte>, n: nat)
    requires d.table.size < TWO32
    ensures Counted(cb, h, d.(n := n), data) == Counted(cb, h, d, data)
    decreases |data|
  {
    if data != [] {
      StepProgress(cb, h, d, data);
      StepIgnoresN(cb, h, d, data, n);
      var s := Step(cb, h, d, data);
      if s.Done? { CountedIgnoresN(cb, h, s.d, s.rest, n); }
    }
  }

  lemma {:induction false} UnlimitedIgnoresN(cb: Codebook, h: Handler, d: Decoder, data: seq<Byte>, n: nat)
    requires d.table.size < TWO32 && d.n < TWO32 && n < TWO32
    ensures DecodeLoop(cb, h, 0, d.(n := n), data) == DecodeLoop(cb, h, 0, d, data).(n := n)
    decreases |data|
  {
    if data != [] {
      StepProgress(cb, h, d, data);
      StepIgnoresN(cb, h, d, data, n);
      var s := Step(cb, h, d, data);
      if s.Done? { UnlimitedIgnoresN(cb, h, s.d, s.rest, n); }
    }
  }

  ghost predicate LimitKept(limit: nat, total: nat, r: Decoder, unlimited: Decoder) {
    && (r.err == Some(TooLarge) <==> total > limit)
    && (total <= limit ==> r == unlimited.(n := total))
    && r.n <= limit
  }

  /** The list is reported too large if and only if its fields count more than the limit, as long as the count fits
      in 32 bits; a list within the limit is decoded as without one. */
  lemma {:induction false} TooLargeIff(cb: Codebook, h: Handler, limit: nat, d: Decoder, data: seq<Byte>)
    requires 0 < limit && d.table.size < TWO32 && d.err == None && d.n <= limit
    requires d.n + Counted(cb, h, d, data) < TWO32
    ensures LimitKept(limit, d.n + Counted(cb, h, d, data), DecodeLoop(cb, h, limit, d, data), DecodeLoop(cb, h, 0, d, data))
    decreases |data|, 0, 0
  {
    if data != [] {
      var s := Step(cb, h, d, data);
      if s.Done? {
        LoopUnfolds(cb, h, limit, d, data, s);
        LoopUnfolds(cb, h, 0, d, data, s);
        ResumeDone(cb, h, limit, data, s);
        ResumeDone(cb, h, 0, data, s);
        TooLargeDone(cb, h, limit, s, s.d.(n := s.d.n + s.size), d.n + Counted(cb, h, d, data), DecodeLoop(cb, h, limit, d, data), DecodeLoop(cb, h, 0, d, data));
      } else {
        NotDoneUnfolds(cb, h, limit, d, data, s);
        NotDoneUnfolds(cb, h, 0, d, data, s);
      }
    }
  }

  lemma {:induction false} TooLargeDone(cb: Codebook, h: Handler, limit: nat, s: StepResult, d1: Decoder, total: nat, r: Decoder, u: Decoder)
    requires s.Done? && 0 < limit && s.d.table.size < TWO32 && s.d.err == None && s.d.n <= limit
    requires s.d.n + s.size + Counted(cb, h, s.d, s.rest) == total < TWO32
    requires u == DecodeLoop(cb, h, 0, s.d, s.rest)
    requires d1 == s.d.(n := s.d.n + s.size)
    requires if d1.n > limit then r == s.d.(err := Some(TooLarge)) else r == DecodeLoop(cb, h, limit, d1, s.rest)
    ensures LimitKept(limit, total, r, u)
    decreases |s.rest|, 1, 0
  {
    if d1.n <= limit {
      CountedIgnoresN(cb, h, s.d, s.rest, d1.n);
      TooLargeFrom(cb, h, limit, d1, s.rest, total, r);
      UnlimitedIgnoresN(cb, h, s.d, s.rest, d1.n);
      LimitMore(limit, d1.n, total, r, DecodeLoop(cb, h, 0, d1, s.rest), u);
    }
  }

  lemma {:induction false} TooLargeFrom(cb: Codebook, h: Handler, limit: nat, d: Decoder, data: seq<Byte>, total: nat, r: Decoder)
    requires 0 < limit && d.table.size < TWO32 && d.err == None && d.n <= limit
    requires d.n + Counted(cb, h, d, data) == total < TWO32 && r == DecodeLoop(cb, h, limit, d, data)
    ensures LimitKept(limit, total, r, DecodeLoop(cb, h, 0, d, data))
    decreases |data|, 0, 1
  {
    TooLargeIff(cb, h, limit, d, data);
  }

  lemma {:induction false} LimitMore(limit: nat, m: nat, total: nat, r: Decoder, u1: Decoder, u: Decoder)
    requires LimitKept(limit, total, r, u1) && u1 == u.(n := m)
    ensures LimitKept(limit, total, r, u)
  {
    assert u.(n := m).(n := total) == u.(n := total);
  }

  lemma {:induction false} LoopUnfolds(cb: Codebook, h: Handler, limit: nat, d: Decoder, data: seq<Byte>, s: StepResult)
    requires d.table.size < TWO32 && d.n < TWO32 && data != [] && s == Step(cb, h, d, data)
    ensures s.d.table.size < TWO32 && s.d.n == d.n && s.d.err == d.err
    ensures s.Done? ==> |s.rest| < |data| && s.size < TWO32
    ensures DecodeLoop(cb, h, limit, d, data) == Resume(cb, h, limit, data, s)
  {
    StepProgress(cb, h, d, data);
  }

  lemma {:induction false} ResumeDone(cb: Codebook, h: Handler, limit: nat, data: seq<Byte>, s: StepResult)
    requires s.Done? && s.d.table.size < TWO32 && s.size < TWO32 && |s.rest| < |data| && s.d.n + s.size < TWO32
    ensures var m := s.d.n + s.size;
      Resume(cb, h, limit, data, s) ==
      if limit == 0 then DecodeLoop(cb, h, 0, s.d, s.rest)
      else if m > limit then s.d.(err := Some(TooLarge)) else DecodeLoop(cb, h, limit, s.d.(n := m), s.rest)
  {
  }

  lemma {:induction false} NotDoneUnfolds(cb: Codebook, h: Handler, limit: nat, d: Decoder, data: seq<Byte>, s: StepResult)
    requires d.table.size < TWO32 && d.n < TWO32 && data != [] && s == Step(cb, h, d, data) && !s.Done?
    ensures s.d.n == d.n && s.d.err == d.err && Counted(cb, h, d, data) == 0 && (s.Fail? ==> s.error != TooLarge)
    ensures DecodeLoop(cb, h, limit, d, data) == if s.More? then s.d.(leftover := data) else s.d.(err := Some(s.error))
  {
    StepProgress(cb, h, d, data);
    StepIgnoresN(cb, h, d, data, d.n);
  }

  // ----- Indices

  /** An index hands over the entry it stands for, and one that stands for none is an error. */
  lemma {:induction false} IndexIff(cb: Codebook, h: Handler, d: Decoder, idx: nat, rest: seq<Byte>)
    requires d.table.size < TWO32 && idx < TWO63
    ensures var a, r := AddressSpace(cb.statics, d.table), Step(cb, h, d, EncIndexed(idx) + rest);
      if 1 <= idx <= |a| then
        var field := HeaderField(a[idx - 1].name, a[idx - 1].value, false);
        && r.d == d.(st := true, calls := d.calls + [field])
        && (if h(d.calls + [field]) then r == Done(r.d, 0, rest) else r == Fail(r.d, HandlerError))
      else r == Fail(d.(st := true), BadIndex)
  {
    IntegerRoundTrip(0x80, 7, idx, rest);
    assert (EncIndexed(idx) + rest)[0] == EncIndexed(idx)[0] >= 128;
  }

  lemma {:induction false} NotRequired(cb: Codebook, h: Handler, d: Decoder, data: seq<Byte>)
    requires d.table.size < TWO32 && data != []
    ensures Step(cb, h, d, data).Fail? ==> Step(cb, h, d, data).error != UpdateRequired
  {
  }

  lemma {:induction false} LoopNotRequired(cb: Codebook, h: Handler, limit: nat, d: Decoder, data: seq<Byte>)
    requires d.table.size < TWO32 && d.n < TWO32 && d.err == None
    ensures DecodeLoop(cb, h, limit, d, data).err != Some(UpdateRequired)
    decreases |data|
  {
    if data != [] {
      StepProgress(cb, h, d, data);
      NotRequired(cb, h, d, data);
      var s := Step(cb, h, d, data);
      if s.Done? {
        var m := Plus32(s.d.n, s.size);
        if limit == 0 {
          LoopNotRequired(cb, h, limit, s.d, s.rest);
        } else if m <= limit {
          LoopNotRequired(cb, h, limit, s.d.(n := m), s.rest);
        }
      }
    }
  }

  /** After the limit was set to max, a block is refused for lack of an update if and only if it does not begin with
      one, and the limit is below the one in force or an earlier setting still waits for its update. */
  lemma {:induction false} RequiredIff(cb: Codebook, h: Handler, limit: nat, d: Decoder, max: nat, block: seq<Byte>)
    requires d.table.size < TWO32 && d.n < TWO32 && d.err == None && d.leftover == [] && block != []
    ensures DecSetMax(d, max).table.size < TWO32
    ensures Decode(cb, h, limit, DecSetMax(d, max), block).err == Some(UpdateRequired) <==>
      !(32 <= block[0] < 64) && (max < d.maxSizeLimit || d.sizeChanged)
  {
    SetMaxSize32(d.table, max);
    var d1 := DecSetMax(d, max);
    assert d1.leftover + block == block;
    LoopNotRequired(cb, h, limit, d1.(leftover := []), block);
  }

  /** No field is handed over before a size update that has become due, and no update is followed beyond the
      limit announced. */
  lemma {:induction false} UpdateDue(cb: Codebook, h: Handler, limit: nat, d: Decoder, block: seq<Byte>)
    requires d.table.size < TWO32 && d.n < TWO32 && d.err == None && block != [] && d.sizeChanged
    ensures var r, data := Decode(cb, h, limit, d, block), d.leftover + block;
      && (!(32 <= data[0] < 64) ==> r == d.(leftover := [], err := Some(UpdateRequired)))
      && (r.calls != d.calls ==> 32 <= data[0] < 64)
  {
  }

  /** An update is followed if and only if it comes before the fields and within the limit announced. */
  lemma {:induction false} UpdateIff(cb: Codebook, h: Handler, d: Decoder, size: nat, rest: seq<Byte>)
    requires d.table.size < TWO32 && size < TWO32
    ensures var r := Step(cb, h, d, EncSizeUpdate(size) + rest);
      && (r.Done? <==> !d.st && size <= d.maxSize)
      && (r.Done? ==> r.rest == rest && r.size == 0 && r.d.table == SetMax(d.table, size) && !r.d.sizeChanged)
      && (r.Fail? ==> r.d == d && r.error == if d.st then UpdateMisplaced else BadTableSize)
      && !r.More?
  {
    IntegerRoundTrip(0x20, 5, size, rest);
    assert (EncSizeUpdate(size) + rest)[0] == EncSizeUpdate(size)[0];
    assert 32 <= EncSizeUpdate(size)[0] < 64;
  }
}
