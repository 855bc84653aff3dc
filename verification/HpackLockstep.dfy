/** Encoder and decoder keep equal tables: over any run of header blocks and table size changes,
    the decoder returns the fields that went into the encoder. */
module HpackLockstep {
  import opened Wrappers
  import opened Bits
  import opened IntegerCodec
  import opened HeaderTable
  import opened HeaderIndex
  import opened Hpack
  import opened HpackChunks

  ghost predicate GoodBook(cb: Codebook) {
    && |cb.statics| < TWO32
    && (forall s :: cb.huffDecode(cb.huffEncode(s)) == s)
    && (forall s :: |cb.huffEncode(s)| <= 4 * |s| + 1)
  }

  /** Fields whose size is a uint32. */
  predicate Encodable(hf: HeaderField) {
    SizeOf(Plain(hf)) < TWO32
  }

  // ----- Strings

  lemma {:induction false} StringRoundTrip(cb: Codebook, s: Str, h: HuffmanMode, rest: seq<Byte>)
    requires GoodBook(cb) && |s| < TWO32
    ensures DecString(cb, EncString(cb, s, h) + rest) == Decoded(s, rest)
  {
    var e := cb.huffEncode(s);
    if h == HuffForce || (h == HuffAuto && |e| < |s|) {
      PayloadRoundTrip(cb, 0x80, e, rest);
    } else {
      PayloadRoundTrip(cb, 0x00, s, rest);
    }
  }

  lemma {:induction false} PayloadRoundTrip(cb: Codebook, mask: Byte, p: seq<Byte>, rest: seq<Byte>)
    requires |p| < TWO63 && (mask == 0x80 || mask == 0)
    ensures DecString(cb, EncInteger(mask, 7, |p|) + p + rest) ==
            Decoded(if mask == 0x80 then cb.huffDecode(p) else p, rest)
  {
    var i := EncInteger(mask, 7, |p|);
    IntegerRoundTrip(mask, 7, |p|, p + rest);
    assert i + p + rest == i + (p + rest);
    assert (p + rest)[..|p|] == p && (p + rest)[|p|..] == rest;
    assert (i + p + rest)[0] == i[0];
  }

  // ----- One representation

  lemma {:induction false} EntriesBound(t: Table)
    requires Exact(t)
    ensures |t.entries| < TWO31
  {
    TotalBound(t.entries);
  }

  lemma {:induction false} TotalBound(s: seq<Field>)
    ensures Total(s) >= 32 * |s|
  {
    if s != [] { TotalBound(s[..|s| - 1]); }
  }

  /** The index space entry behind a chosen representation. */
  lemma {:induction false} ChosenEntry(cb: Codebook, e: Encoder, hf: HeaderField)
    requires Exact(e.table)
    ensures var r := Choose(cb, e, hf);
      var idx := if r.Indexed? then r.idx else r.nameIdx;
      && idx <= |cb.statics| + |e.table.entries|
      && (r.Indexed? ==> Entry(cb.statics, e.table, idx) == Some(Plain(hf)) && !hf.sensitive)
      && (r.Literal? && idx > 0 ==> var x := Entry(cb.statics, e.table, idx); x.Some? && x.value.name == hf.name)
      && (r.Literal? ==> hf.sensitive == (r.kind == IndexedNever))
  {
    var f := Plain(hf);
    StaticFindSound(cb.statics, f);
    FindSound(cb.statics, e.table, f);
    var a := AddressSpace(cb.statics, e.table);
    assert forall k :: 0 <= k < |cb.statics| ==> a[k] == cb.statics[k];
  }

  /** The decoder after the representation of one field. */
  function AfterField(d: Decoder, r: Repr, hf: HeaderField): (d': Decoder)
    requires d.table.size < TWO32
  {
    d.(st := true, table := AfterRepr(d.table, r, Plain(hf)), calls := d.calls + [hf])
  }

  lemma {:induction false} IndexedStep(cb: Codebook, h: Handler, d: Decoder, idx: nat, hf: HeaderField, rest: seq<Byte>)
    requires d.table.size < TWO32 && idx < TWO63 && h(d.calls + [hf]) && !hf.sensitive
    requires Entry(cb.statics, d.table, idx) == Some(Plain(hf))
    ensures Step(cb, h, d, EncIndexed(idx) + rest) == Done(AfterField(d, Indexed(idx), hf), 0, rest)
  {
    IntegerRoundTrip(0x80, 7, idx, rest);
    assert (EncIndexed(idx) + rest)[0] == EncIndexed(idx)[0];
  }

  lemma {:induction false} LiteralStep(cb: Codebook, h: Handler, d: Decoder, k: IndexType, idx: nat, hf: HeaderField,
                                       mode: HuffmanMode, rest: seq<Byte>)
    requires GoodBook(cb) && d.table.size < TWO32 && idx < TWO63 && h(d.calls + [hf]) && Encodable(hf)
    requires hf.sensitive == (k == IndexedNever)
    requires idx > 0 ==> var x := Entry(cb.statics, d.table, idx); x.Some? && x.value.name == hf.name
    ensures StepLiteral(cb, h, d, k, EncLiteral(cb, Plain(hf), k, idx, mode) + rest) ==
            Done(AfterField(d, Literal(k, idx), hf), LiteralSize(Plain(hf), idx), rest)
  {
    var data := EncLiteral(cb, Plain(hf), k, idx, mode) + rest;
    var value := EncString(cb, hf.value, mode);
    LiteralParts(cb, Plain(hf), k, idx, mode, rest);
    if idx == 0 {
      var name := EncString(cb, hf.name, mode);
      NamedLiteral(cb, h, d, k, data, name + (value + rest), hf.name, value + rest, hf.value, rest);
    } else {
      IndexedLiteral(cb, h, d, k, data, idx, hf.name, value + rest, hf.value, rest);
    }
    Finish(h, d.(st := true), k, idx, hf, rest);
  }

  /** Index, name unless indexed, and value are read back one after the other. */
  lemma {:induction false} LiteralParts(cb: Codebook, f: Field, k: IndexType, idx: nat, mode: HuffmanMode, rest: seq<Byte>)
    requires GoodBook(cb) && idx < TWO63 && |f.name| < TWO32 && |f.value| < TWO32
    ensures var name := if idx == 0 then EncString(cb, f.name, mode) else [];
      var value := EncString(cb, f.value, mode);
      && DecString(cb, value + rest) == Decoded(f.value, rest)
      && (idx == 0 ==> DecString(cb, name + (value + rest)) == Decoded(f.name, value + rest))
      && DecInteger(EncLiteral(cb, f, k, idx, mode) + rest, PrefixLen(k)) ==
         Int(idx, if idx == 0 then name + (value + rest) else value + rest)
  {
    var i := EncInteger(Mask(k), PrefixLen(k), idx);
    var name := if idx == 0 then EncString(cb, f.name, mode) else [];
    var value := EncString(cb, f.value, mode);
    var tail := name + (value + rest);
    assert i + name + value + rest == i + tail;
    if idx > 0 { assert tail == value + rest; }
    IntegerRoundTrip(Mask(k), PrefixLen(k), idx, tail);
    StringRoundTrip(cb, f.value, mode, rest);
    if idx == 0 { StringRoundTrip(cb, f.name, mode, value + rest); }
  }

  lemma {:induction false} NamedLiteral(cb: Codebook, h: Handler, d: Decoder, k: IndexType, data: seq<Byte>,
                                        data1: seq<Byte>, name: Str, data2: seq<Byte>, value: Str, rest: seq<Byte>)
    requires d.table.size < TWO32
    requires DecInteger(data, PrefixLen(k)) == Int(0, data1)
    requires DecString(cb, data1) == Decoded(name, data2) && DecString(cb, data2) == Decoded(value, rest)
    ensures StepLiteral(cb, h, d, k, data) == FinishLiteral(h, d.(st := true), k, 0, Field(name, value), rest)
  {
  }

  lemma {:induction false} IndexedLiteral(cb: Codebook, h: Handler, d: Decoder, k: IndexType, data: seq<Byte>, idx: nat,
                                          name: Str, data2: seq<Byte>, value: Str, rest: seq<Byte>)
    requires d.table.size < TWO32 && idx > 0
    requires DecInteger(data, PrefixLen(k)) == Int(idx, data2)
    requires var x := Entry(cb.statics, d.table, idx); x.Some? && x.value.name == name
    requires DecString(cb, data2) == Decoded(value, rest)
    ensures StepLiteral(cb, h, d, k, data) == FinishLiteral(h, d.(st := true), k, idx, Field(name, value), rest)
  {
  }

  lemma {:induction false} Finish(h: Handler, d: Decoder, k: IndexType, idx: nat, hf: HeaderField, rest: seq<Byte>)
    requires d.table.size < TWO32 && d.st && h(d.calls + [hf]) && hf.sensitive == (k == IndexedNever)
    ensures FinishLiteral(h, d, k, idx, Plain(hf), rest) ==
            Done(AfterField(d, Literal(k, idx), hf), LiteralSize(Plain(hf), idx), rest)
  {
  }

  lemma {:induction false} ReprStep(cb: Codebook, h: Handler, e: Encoder, d: Decoder, hf: HeaderField, rest: seq<Byte>)
    requires GoodBook(cb) && Exact(e.table) && d.table == e.table && h(d.calls + [hf]) && Encodable(hf)
    ensures var r := Choose(cb, e, hf);
      Step(cb, h, d, EncRepr(cb, r, Plain(hf), e.huffman) + rest) ==
      Done(AfterField(d, r, hf), ReprSize(r, Plain(hf)), rest)
  {
    var r := Choose(cb, e, hf);
    ChosenEntry(cb, e, hf);
    EntriesBound(e.table);
    if r.Indexed? {
      IndexedStep(cb, h, d, r.idx, hf, rest);
    } else {
      LiteralStep(cb, h, d, r.kind, r.nameIdx, hf, e.huffman, rest);
      LiteralDispatch(cb, h, d, r.kind, r.nameIdx, Plain(hf), e.huffman, rest);
    }
  }

  lemma {:induction false} LiteralDispatch(cb: Codebook, h: Handler, d: Decoder, k: IndexType, idx: nat, f: Field,
                                           mode: HuffmanMode, rest: seq<Byte>)
    requires d.table.size < TWO32
    ensures var data := EncLiteral(cb, f, k, idx, mode) + rest;
      Step(cb, h, d, data) == StepLiteral(cb, h, d, k, data)
  {
    var i := EncInteger(Mask(k), PrefixLen(k), idx);
    var data := EncLiteral(cb, f, k, idx, mode) + rest;
    assert data[0] == i[0];
  }

  // ----- Blocks

  function EncFields(cb: Codebook, e: Encoder, fields: seq<HeaderField>): (r: (Encoder, seq<Byte>, nat))
    requires e.table.size < TWO32
    ensures r.0.table.size < TWO32
    decreases |fields|
  {
    if fields == [] then (e, [], 0)
    else
      AfterReprSize(cb, e, fields[0]);
      var (e1, b1, n1) := EncField(cb, e, fields[0]);
      var (e2, b2, n2) := EncFields(cb, e1, fields[1..]);
      (e2, b1 + b2, n1 + n2)
  }

  lemma {:induction false} AfterReprSize(cb: Codebook, e: Encoder, hf: HeaderField)
    requires e.table.size < TWO32
    ensures EncField(cb, e, hf).0.table.size < TWO32
  {
    AddSize32(e.table, Plain(hf));
  }

  /** Nothing announced is outstanding and the tables are equal. */
  ghost predicate InStep(e: Encoder, d: Decoder) {
    && Exact(e.table) && e.table == d.table
    && !e.sizeChanged && e.minSize == TWO32 - 1 && !d.sizeChanged
    && d.maxSize == d.maxSizeLimit == d.table.maxSize
  }

  ghost predicate Ready(d: Decoder) {
    d.err == None && d.leftover == []
  }

  function Counted(d: Decoder, limit: nat, n: nat): (m: nat) {
    if limit == 0 then d.n else d.n + n
  }

  lemma {:induction false} FieldKeepsStep(cb: Codebook, e: Encoder, d: Decoder, hf: HeaderField)
    requires GoodBook(cb) && InStep(e, d) && Encodable(hf)
    ensures var e1 := EncField(cb, e, hf).0;
      e1.table.size < TWO32 && InStep(e1, AfterField(d, Choose(cb, e, hf), hf))
  {
    TableExact(e.table, 0, Plain(hf));
  }

  /** The handler accepts the fields one after the other. */
  predicate Accepts(h: Handler, calls: seq<HeaderField>, fields: seq<HeaderField>)
    decreases |fields|
  {
    fields == [] || (h(calls + [fields[0]]) && Accepts(h, calls + [fields[0]], fields[1..]))
  }

  /** In step, the fields of a block are decoded one by one and the tables stay equal. */
  lemma {:induction false} FieldsDecode(cb: Codebook, h: Handler, limit: nat, e: Encoder, d: Decoder, fields: seq<HeaderField>)
    returns (d': Decoder)
    requires GoodBook(cb) && InStep(e, d) && Ready(d) && d.n < TWO32 && limit < TWO32
    requires Accepts(h, d.calls, fields)
    requires forall f :: f in fields ==> Encodable(f)
    requires limit == 0 || d.n + EncFields(cb, e, fields).2 <= limit
    ensures d' == DecodeLoop(cb, h, limit, d, EncFields(cb, e, fields).1)
    ensures InStep(EncFields(cb, e, fields).0, d') && Ready(d')
    ensures d'.calls == d.calls + fields && d'.n == Counted(d, limit, EncFields(cb, e, fields).2)
    decreases |fields|
  {
    d' := d;
    if fields != [] {
      var hf, tail := fields[0], fields[1..];
      var r := Choose(cb, e, hf);
      FieldKeepsStep(cb, e, d, hf);
      var (e1, b1, n1) := EncField(cb, e, hf);
      var (e2, b2, n2) := EncFields(cb, e1, tail);
      assert EncFields(cb, e, fields) == (e2, b1 + b2, n1 + n2);
      assert d.calls + [hf] + tail == d.calls + fields;
      var d1 := AfterField(d, r, hf).(n := Counted(d, limit, n1));
      assert Counted(d1, limit, n2) == Counted(d, limit, n1 + n2);
      FieldDecodes(cb, h, limit, e, d, hf, b2);
      d' := FieldsDecode(cb, h, limit, e1, d1, tail);
    }
  }

  lemma {:induction false} FieldDecodes(cb: Codebook, h: Handler, limit: nat, e: Encoder, d: Decoder, hf: HeaderField, rest: seq<Byte>)
    requires GoodBook(cb) && InStep(e, d) && d.n < TWO32 && limit < TWO32 && h(d.calls + [hf]) && Encodable(hf)
    requires limit == 0 || d.n + EncField(cb, e, hf).2 <= limit
    ensures var d1 := AfterField(d, Choose(cb, e, hf), hf).(n := Counted(d, limit, EncField(cb, e, hf).2));
      d1.table.size < TWO32 && d1.n < TWO32 &&
      DecodeLoop(cb, h, limit, d, EncField(cb, e, hf).1 + rest) == DecodeLoop(cb, h, limit, d1, rest)
  {
    var r := Choose(cb, e, hf);
    var b, n := EncRepr(cb, r, Plain(hf), e.huffman), ReprSize(r, Plain(hf));
    assert EncField(cb, e, hf).1 == b;
    var d0 := AfterField(d, r, hf);
    assert Counted(d, limit, n) == Counted(d0, limit, n);
    ReprStep(cb, h, e, d, hf, rest);
    DecodesTo(cb, h, limit, d, b + rest, d0, n, rest);
  }

  lemma {:induction false} DecodesTo(cb: Codebook, h: Handler, limit: nat, d: Decoder, data: seq<Byte>,
                                     d0: Decoder, n: nat, rest: seq<Byte>)
    requires d.table.size < TWO32 && d.n < TWO32 && data != [] && d0.n == d.n
    requires Step(cb, h, d, data) == Done(d0, n, rest)
    requires limit < TWO32 && (limit == 0 || d.n + n <= limit)
    ensures d0.table.size < TWO32
    ensures DecodeLoop(cb, h, limit, d, data) == DecodeLoop(cb, h, limit, d0.(n := Counted(d0, limit, n)), rest)
  {
    LoopDone(cb, h, limit, d, data, d0, n, rest);
    ResumeDone(cb, h, limit, data, d0, n, rest);
  }

  lemma {:induction false} LoopDone(cb: Codebook, h: Handler, limit: nat, d: Decoder, data: seq<Byte>,
                                    d1: Decoder, n: nat, rest: seq<Byte>)
    requires d.table.size < TWO32 && d.n < TWO32 && data != []
    requires Step(cb, h, d, data) == Done(d1, n, rest)
    ensures d1.table.size < TWO32 && d1.n == d.n && n < TWO32 && |rest| < |data|
    ensures DecodeLoop(cb, h, limit, d, data) == Resume(cb, h, limit, data, Done(d1, n, rest))
  {
    StepProgress(cb, h, d, data);
  }

  lemma {:induction false} ResumeDone(cb: Codebook, h: Handler, limit: nat, data: seq<Byte>, d1: Decoder, n: nat, rest: seq<Byte>)
    requires d1.table.size < TWO32 && d1.n < TWO32 && n < TWO32 && |rest| < |data|
    requires limit < TWO32 && (limit == 0 || d1.n + n <= limit)
    ensures Resume(cb, h, limit, data, Done(d1, n, rest)) ==
            DecodeLoop(cb, h, limit, d1.(n := Counted(d1, limit, n)), rest)
  {
    assert d1.(n := d1.n) == d1;
  }

  // ----- Table size changes

  /** What holds between blocks: both sides know the same limit, and evicting the decoder's table
      to the smallest size not yet announced gives the encoder's. */
  ghost predicate Synced(e: Encoder, d: Decoder) {
    && Ready(d) && !d.st && d.n == 0
    && Exact(e.table) && Exact(d.table) && e.table.maxSize == d.maxSize && d.table.maxSize <= d.maxSizeLimit
    && if e.sizeChanged
       then e.minSize <= e.table.maxSize && e.table.entries == Evict(d.table.entries, e.minSize)
       else InStep(e, d)
  }

  lemma {:induction false} SyncedInit(max: nat)
    requires max < TWO31
    ensures Synced(NewEncoder(max), NewDecoder(max))
  {
  }

  lemma {:induction false} ResizedEntries(e: Encoder, d: Decoder, max: nat)
    requires Synced(e, d) && max < TWO31
    ensures var m, s := if max < e.minSize then max else e.minSize, d.table.entries;
      && Evict(e.table.entries, max) == Evict(s, m)
      && Evict(Evict(s, max), m) == Evict(s, m)
  {
    var s := d.table.entries;
    var m := if max < e.minSize then max else e.minSize;
    if e.sizeChanged { EvictTwice(s, e.minSize, max); }
    EvictTwice(s, max, m);
  }

  lemma {:induction false} ResizeKeepsSynced(e: Encoder, d: Decoder, max: nat)
    requires Synced(e, d) && max < TWO31
    ensures Synced(EncSetMax(e, max), DecSetMax(d, max))
  {
    SetMaxExact(e.table, max);
    SetMaxExact(d.table, max);
    ResizedEntries(e, d, max);
  }

  /** The pending updates bring the decoder's table to the encoder's. */
  lemma {:induction false} UpdatesDecode(cb: Codebook, h: Handler, limit: nat, e: Encoder, d: Decoder, rest: seq<Byte>)
    requires GoodBook(cb) && Synced(e, d) && e.sizeChanged
    ensures var d' := d.(maxSizeLimit := e.table.maxSize, sizeChanged := false, table := e.table);
      && InStep(ClearUpdates(e), d') && Ready(d')
      && DecodeLoop(cb, h, limit, d, EncUpdates(e) + rest) == DecodeLoop(cb, h, limit, d', rest)
      && 32 <= EncUpdates(e)[0] < 64
  {
    var max, min := e.table.maxSize, e.minSize;
    var last := EncSizeUpdate(max);
    var d' := d.(maxSizeLimit := max, sizeChanged := false, table := e.table);
    if min < max {
      var d1 := d.(maxSizeLimit := min, sizeChanged := false, table := SetMax(d.table, min));
      ShrinkThenGrow(d.table, e.table, min);
      assert EncUpdates(e) + rest == EncSizeUpdate(min) + (last + rest);
      assert EncUpdates(e)[0] == EncSizeUpdate(min)[0];
      assert d1.(maxSizeLimit := max, sizeChanged := false, table := SetMax(d1.table, max)) == d';
      UpdateStep(cb, h, limit, d, min, last + rest);
      UpdateStep(cb, h, limit, d1, max, rest);
    } else {
      assert EncUpdates(e) == last;
      TableExact(d.table, max, Field([], []));
      assert d.(maxSizeLimit := max, sizeChanged := false, table := SetMax(d.table, max)) == d';
      UpdateStep(cb, h, limit, d, max, rest);
    }
  }

  lemma {:induction false} ShrinkThenGrow(t: Table, goal: Table, min: nat)
    requires Exact(t) && Exact(goal) && min <= goal.maxSize && goal.entries == Evict(t.entries, min)
    ensures var t1 := SetMax(t, min); t1.size < TWO32 && SetMax(t1, goal.maxSize) == goal
  {
    var f := Field([], []);
    TableExact(t, min, f);
    TableExact(SetMax(t, min), goal.maxSize, f);
  }

  lemma {:induction false} UpdateStep(cb: Codebook, h: Handler, limit: nat, d: Decoder, size: nat, rest: seq<Byte>)
    requires d.table.size < TWO32 && d.n == 0 && !d.st && size <= d.maxSize && size < TWO32
    ensures var d' := d.(maxSizeLimit := size, sizeChanged := false, table := SetMax(d.table, size));
      && d'.table.size < TWO32 && 32 <= EncSizeUpdate(size)[0] < 64
      && DecodeLoop(cb, h, limit, d, EncSizeUpdate(size) + rest) == DecodeLoop(cb, h, limit, d', rest)
  {
    var u := EncSizeUpdate(size);
    SetMaxSize32(d.table, size);
    IntegerRoundTrip(0x20, 5, size, rest);
    assert (u + rest)[0] == u[0];
    var d' := d.(maxSizeLimit := size, sizeChanged := false, table := SetMax(d.table, size));
    assert Step(cb, h, d, u + rest) == Done(d', 0, rest);
  }

  // ----- Whole blocks and runs

  lemma {:induction false} BlockRoundTrip(cb: Codebook, h: Handler, limit: nat, e: Encoder, d: Decoder, fields: seq<HeaderField>)
    requires GoodBook(cb) && Synced(e, d) && limit < TWO32
    requires Accepts(h, d.calls, fields)
    requires forall f :: f in fields ==> Encodable(f)
    requires limit == 0 || EncFields(cb, e, fields).2 <= limit
    ensures var (e', bytes, n) := EncFields(cb, e, fields);
      var d' := Decode(cb, h, limit, d, bytes);
      && Ready(d') && d'.calls == d.calls + fields && d'.n == Counted(d, limit, n)
      && (fields != [] ==> InStep(e', d'))
      && d'.table.size < TWO32
      && Synced(e', Reset(d').0) && !Reset(d').1
  {
    if fields == [] {
      assert EncFields(cb, e, fields).1 == [];
      assert d.calls + fields == d.calls;
    } else {
      var c := ClearUpdates(e);
      ClearedEncoding(cb, e, fields);
      var (e', body, n) := EncFields(cb, c, fields);
      var bytes := EncFields(cb, e, fields).1;
      assert [] + bytes == bytes;
      if e.sizeChanged {
        UpdatesDecode(cb, h, limit, e, d, body);
        var d1 := d.(maxSizeLimit := e.table.maxSize, sizeChanged := false, table := e.table);
        var d2 := FieldsDecode(cb, h, limit, c, d1, fields);
        assert bytes[0] == EncUpdates(e)[0];
        assert Decode(cb, h, limit, d, bytes) == DecodeLoop(cb, h, limit, d1, body);
      } else {
        var d2 := FieldsDecode(cb, h, limit, e, d, fields);
        assert EncUpdates(e) + body == body;
      }
    }
  }

  /** Pending updates are written in front of the first field and change nothing else. */
  lemma {:induction false} ClearedEncoding(cb: Codebook, e: Encoder, fields: seq<HeaderField>)
    requires e.table.size < TWO32 && fields != []
    ensures var (e1, b1, n1) := EncFields(cb, e, fields);
      var (e2, b2, n2) := EncFields(cb, ClearUpdates(e), fields);
      e1 == e2 && n1 == n2 && b1 == EncUpdates(e) + b2 && b2 != []
  {
    var c, hf := ClearUpdates(e), fields[0];
    var r := Choose(cb, e, hf);
    assert Choose(cb, c, hf) == r;
    var x := EncRepr(cb, r, Plain(hf), e.huffman);
    var e1 := EncField(cb, e, hf).0;
    AfterReprSize(cb, e, hf);
    assert EncField(cb, c, hf) == (e1, [] + x, ReprSize(r, Plain(hf)));
    assert [] + x == x;
    var tail := EncFields(cb, e1, fields[1..]).1;
    Assoc(EncUpdates(e), x, tail);
  }

  datatype Event =
    | Resize(max: nat)
    | Block(fields: seq<HeaderField>, chunks: seq<seq<Byte>>, limit: nat)

  predicate ValidEvent(ev: Event) {
    match ev
    case Resize(max) => max < TWO31
    case Block(fields, _, limit) => limit < TWO32 && forall f :: f in fields ==> Encodable(f)
  }

  /** A run in which both sides are given the same size changes between blocks, and the bytes of
      each block reach the decoder in the given chunks. Blocks are within their size limit and their
      fields accepted by the handler. */
  ghost predicate IsRun(cb: Codebook, h: Handler, e: Encoder, d: Decoder, run: seq<Event>)
    requires e.table.size < TWO32 && d.table.size < TWO32 && d.n < TWO32
    decreases |run|
  {
    run == [] || (ValidEvent(run[0]) &&
      match run[0]
      case Resize(max) =>
        SetMaxSize32(e.table, max);
        SetMaxSize32(d.table, max);
        IsRun(cb, h, EncSetMax(e, max), DecSetMax(d, max), run[1..])
      case Block(fields, chunks, limit) =>
        var (e', bytes, n) := EncFields(cb, e, fields);
        && Concat(chunks) == bytes && (limit == 0 || n <= limit) && Accepts(h, d.calls, fields)
        && IsRun(cb, h, e', Reset(DecodeAll(cb, h, limit, d, chunks)).0, run[1..]))
  }

  /** In every block of a run the decoder makes exactly the calls for the encoded fields, without
      error or leftover, counts the same sizes, and ends with the encoder's table. */
  ghost predicate AllBlocksAgree(cb: Codebook, h: Handler, e: Encoder, d: Decoder, run: seq<Event>)
    requires e.table.size < TWO32 && d.table.size < TWO32 && d.n < TWO32
    decreases |run|
  {
    run == [] ||
      match run[0]
      case Resize(max) =>
        SetMaxSize32(e.table, max);
        SetMaxSize32(d.table, max);
        AllBlocksAgree(cb, h, EncSetMax(e, max), DecSetMax(d, max), run[1..])
      case Block(fields, chunks, limit) =>
        var (e', bytes, n) := EncFields(cb, e, fields);
        var d' := DecodeAll(cb, h, limit, d, chunks);
        && d'.err == None && !Reset(d').1
        && d'.calls == d.calls + fields
        && d'.n == (if limit == 0 then 0 else n)
        && (fields != [] ==> d'.table == e'.table)
        && AllBlocksAgree(cb, h, e', Reset(d').0, run[1..])
  }

  lemma {:induction false} RunAgrees(cb: Codebook, h: Handler, e: Encoder, d: Decoder, run: seq<Event>)
    requires GoodBook(cb) && Synced(e, d) && IsRun(cb, h, e, d, run)
    ensures AllBlocksAgree(cb, h, e, d, run)
    decreases |run|
  {
    if run != [] {
      match run[0]
      case Resize(max) =>
        SetMaxSize32(e.table, max);
        SetMaxSize32(d.table, max);
        ResizeKeepsSynced(e, d, max);
        RunAgrees(cb, h, EncSetMax(e, max), DecSetMax(d, max), run[1..]);
      case Block(fields, chunks, limit) =>
        BlockRoundTrip(cb, h, limit, e, d, fields);
        ChunkIndependence(cb, h, limit, d, chunks);
        var (e', bytes, n) := EncFields(cb, e, fields);
        var d' := DecodeAll(cb, h, limit, d, chunks);
        RunAgrees(cb, h, e', Reset(d').0, run[1..]);
    }
  }

  /** The headline: fresh encoder and decoder agree over every run. */
  lemma {:induction false} Lockstep(cb: Codebook, h: Handler, max: nat, run: seq<Event>)
    requires GoodBook(cb) && max < TWO31
    requires IsRun(cb, h, NewEncoder(max), NewDecoder(max), run)
    ensures AllBlocksAgree(cb, h, NewEncoder(max), NewDecoder(max), run)
  {
    SyncedInit(max);
    RunAgrees(cb, h, NewEncoder(max), NewDecoder(max), run);
  }
}
