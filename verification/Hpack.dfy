/** HPACK encoding and decoding of header fields as functions of their state: one field or
    instruction at a time, whole blocks, and the incremental decoder. */
module Hpack {
  import opened Wrappers
  import opened Bits
  import opened IntegerCodec
  import opened HeaderTable
  import opened HeaderIndex

  /** The Huffman codec for strings and the static table. */
  datatype Codebook = Codebook(huffEncode: Str -> seq<Byte>, huffDecode: seq<Byte> -> Str, statics: seq<Field>)

  datatype HeaderField = HeaderField(name: Str, value: Str, sensitive: bool)

  function Plain(hf: HeaderField): (f: Field) {
    Field(hf.name, hf.value)
  }

  datatype IndexType = IndexedTrue | IndexedFalse | IndexedNever

  datatype HuffmanMode = HuffForce | HuffAuto | HuffOff

  function Mask(k: IndexType): (m: Byte) {
    match k
    case IndexedTrue => 0x40
    case IndexedFalse => 0x00
    case IndexedNever => 0x10
  }

  function PrefixLen(k: IndexType): (n: nat)
    ensures ValidPrefix(Mask(k), n)
  {
    if k == IndexedTrue then 6 else 4
  }

  // ----- Encoder

  function EncString(cb: Codebook, s: Str, h: HuffmanMode): (r: seq<Byte>)
    ensures |r| > 0
  {
    var e := cb.huffEncode(s);
    if h == HuffForce || (h == HuffAuto && |e| < |s|) then EncInteger(0x80, 7, |e|) + e
    else EncInteger(0x00, 7, |s|) + s
  }

  function EncIndexed(idx: nat): (r: seq<Byte>)
    ensures |r| > 0
  {
    EncInteger(0x80, 7, idx)
  }

  function EncLiteral(cb: Codebook, f: Field, k: IndexType, idx: nat, h: HuffmanMode): (r: seq<Byte>)
    ensures |r| > 0
  {
    EncInteger(Mask(k), PrefixLen(k), idx) + (if idx == 0 then EncString(cb, f.name, h) else []) + EncString(cb, f.value, h)
  }

  function EncSizeUpdate(size: nat): (r: seq<Byte>)
    ensures |r| > 0
  {
    EncInteger(0x20, 5, size)
  }

  /** Octets a literal counts towards the header list size, as a uint32. */
  function LiteralSize(f: Field, idx: nat): (n: nat)
    ensures n < TWO32
  {
    HeaderFieldSize(if idx == 0 then f else Field([], f.value))
  }

  datatype Encoder = Encoder(table: Table, minSize: nat, sizeChanged: bool, indexing: bool, huffman: HuffmanMode)

  function NewEncoder(max: nat): (e: Encoder) {
    Encoder(Table([], 0, max), TWO32 - 1, false, true, HuffAuto)
  }

  function EncSetMax(e: Encoder, max: nat): (e': Encoder)
    requires e.table.size < TWO32
  {
    e.(minSize := if max < e.minSize then max else e.minSize, sizeChanged := true, table := SetMax(e.table, max))
  }

  /** The pending size updates: the smallest size passed through, if the final one is larger, and the final one. */
  function EncUpdates(e: Encoder): (r: seq<Byte>) {
    if !e.sizeChanged then []
    else (if e.minSize < e.table.maxSize then EncSizeUpdate(e.minSize) else []) + EncSizeUpdate(e.table.maxSize)
  }

  function ClearUpdates(e: Encoder): (e': Encoder) {
    if e.sizeChanged then e.(sizeChanged := false, minSize := TWO32 - 1) else e
  }

  /** How a field is represented: as an index, or as a literal with a possibly indexed name. */
  datatype Repr = Indexed(idx: nat) | Literal(kind: IndexType, nameIdx: nat)

  function Choose(cb: Codebook, e: Encoder, hf: HeaderField): (r: Repr) {
    var f := Plain(hf);
    if hf.sensitive then Literal(IndexedNever, 0)
    else if e.table.maxSize == 0 then
      var r := StaticFind(cb.statics, f);
      if r.matched then Indexed(r.idx) else Literal(IndexedFalse, r.idx)
    else if HeaderFieldSize(f) > e.table.maxSize then Literal(IndexedFalse, 0)
    else
      var r := Find(cb.statics, e.table, f);
      if r.matched then Indexed(r.idx)
      else Literal(if e.indexing then IndexedTrue else IndexedFalse, r.idx)
  }

  function EncRepr(cb: Codebook, r: Repr, f: Field, h: HuffmanMode): (b: seq<Byte>)
    ensures |b| > 0
  {
    if r.Indexed? then EncIndexed(r.idx) else EncLiteral(cb, f, r.kind, r.nameIdx, h)
  }

  function AfterRepr(t: Table, r: Repr, f: Field): (t': Table)
    requires t.size < TWO32
  {
    if r.Literal? && r.kind == IndexedTrue then Add(t, f) else t
  }

  function ReprSize(r: Repr, f: Field): (n: nat)
    ensures n < TWO32
  {
    if r.Indexed? then 0 else LiteralSize(f, r.nameIdx)
  }

  /** One field: pending updates, then its representation. */
  function EncField(cb: Codebook, e: Encoder, hf: HeaderField): (r: (Encoder, seq<Byte>, nat))
    requires e.table.size < TWO32
    ensures |r.1| > 0
  {
    var r := Choose(cb, e, hf);
    (ClearUpdates(e).(table := AfterRepr(e.table, r, Plain(hf))),
     EncUpdates(e) + EncRepr(cb, r, Plain(hf), e.huffman),
     ReprSize(r, Plain(hf)))
  }

  // ----- Decoder

  datatype DecodeError =
    | UpdateRequired | UpdateMisplaced | BadTableSize | BadIndex | IntegerOverflow
    | TooLarge | HandlerError

  datatype StrResult = Decoded(s: Str, rest: seq<Byte>) | StrNeedsMore | StrOverflow

  ghost function DecString(cb: Codebook, data: seq<Byte>): (r: StrResult)
  {
    match DecInteger(data, 7)
    case NeedsMore => StrNeedsMore
    case Overflow => StrOverflow
    case Int(l, rest) =>
      if |rest| < l then StrNeedsMore
      else Decoded(if data[0] >= 128 then cb.huffDecode(rest[..l]) else rest[..l], rest[l..])
  }

  /** Handlers see all fields so far and accept or refuse the last one. */
  type Handler = seq<HeaderField> -> bool

  /** The decoder between instructions: table, announced limits, size count, sticky error,
      carried-over bytes, whether a field was seen in this block, and the handler calls made. */
  datatype Decoder = Decoder(
    table: Table, maxSize: nat, maxSizeLimit: nat, sizeChanged: bool,
    n: nat, err: Option<DecodeError>, leftover: seq<Byte>, st: bool, calls: seq<HeaderField>)

  function NewDecoder(max: nat): (d: Decoder) {
    Decoder(Table([], 0, max), max, max, false, 0, None, [], false, [])
  }

  function DecSetMax(d: Decoder, max: nat): (d': Decoder)
    requires d.table.size < TWO32
  {
    if max < d.maxSizeLimit then d.(maxSize := max, sizeChanged := true, table := SetMax(d.table, max))
    else d.(maxSize := max)
  }

  /** Starts a new block; reports whether the last one was cut short. */
  function Reset(d: Decoder): (r: (Decoder, bool)) {
    (d.(err := None, st := false, n := 0, leftover := []), |d.leftover| > 0)
  }

  datatype StepResult =
    | More(d: Decoder)
    | Fail(d: Decoder, error: DecodeError)
    | Done(d: Decoder, size: nat, rest: seq<Byte>)

  function Emit(h: Handler, d: Decoder, hf: HeaderField, size: nat, rest: seq<Byte>): (r: StepResult) {
    var d' := d.(calls := d.calls + [hf]);
    if h(d'.calls) then Done(d', size, rest) else Fail(d', HandlerError)
  }

  function StepIndexed(cb: Codebook, h: Handler, d: Decoder, data: seq<Byte>): (r: StepResult) {
    var d1 := d.(st := true);
    match DecInteger(data, 7)
    case NeedsMore => More(d1)
    case Overflow => Fail(d1, IntegerOverflow)
    case Int(idx, rest) =>
      match Entry(cb.statics, d.table, idx)
      case None => Fail(d1, BadIndex)
      case Some(e) => Emit(h, d1, HeaderField(e.name, e.value, false), 0, rest)
  }

  function FinishLiteral(h: Handler, d: Decoder, k: IndexType, idx: nat, f: Field, rest: seq<Byte>): (r: StepResult)
    requires d.table.size < TWO32
  {
    var d2 := if k == IndexedTrue then d.(table := Add(d.table, f)) else d;
    Emit(h, d2, HeaderField(f.name, f.value, k == IndexedNever), LiteralSize(f, idx), rest)
  }

  ghost function LiteralValue(cb: Codebook, h: Handler, d: Decoder, k: IndexType, idx: nat, name: Str, data: seq<Byte>): (r: StepResult)
    requires d.table.size < TWO32
  {
    match DecString(cb, data)
    case StrNeedsMore => More(d)
    case StrOverflow => Fail(d, IntegerOverflow)
    case Decoded(value, rest) => FinishLiteral(h, d, k, idx, Field(name, value), rest)
  }

  /** The name, by its index or as a string, then the value. */
  ghost function LiteralName(cb: Codebook, h: Handler, d: Decoder, k: IndexType, idx: nat, data: seq<Byte>): (r: StepResult)
    requires d.table.size < TWO32
  {
    if idx > 0 then
      match Entry(cb.statics, d.table, idx)
      case None => Fail(d, BadIndex)
      case Some(e) => LiteralValue(cb, h, d, k, idx, e.name, data)
    else
      match DecString(cb, data)
      case StrNeedsMore => More(d)
      case StrOverflow => Fail(d, IntegerOverflow)
      case Decoded(name, rest) => LiteralValue(cb, h, d, k, 0, name, rest)
  }

  ghost function StepLiteral(cb: Codebook, h: Handler, d: Decoder, k: IndexType, data: seq<Byte>): (r: StepResult)
    requires d.table.size < TWO32
  {
    var d1 := d.(st := true);
    match DecInteger(data, PrefixLen(k))
    case NeedsMore => More(d1)
    case Overflow => Fail(d1, IntegerOverflow)
    case Int(idx, rest) => LiteralName(cb, h, d1, k, idx, rest)
  }

  function StepUpdate(d: Decoder, data: seq<Byte>): (r: StepResult)
    requires d.table.size < TWO32
  {
    if d.st then Fail(d, UpdateMisplaced)
    else
      match DecInteger(data, 5)
      case NeedsMore => More(d)
      case Overflow => Fail(d, IntegerOverflow)
      case Int(i, rest) =>
        var size := Low32(i);
        if size > d.maxSize then Fail(d, BadTableSize)
        else Done(d.(maxSizeLimit := size, sizeChanged := false, table := SetMax(d.table, size)), 0, rest)
  }

  /** uint32(i) */
  function Low32(i: nat): (n: nat)
    ensures n < TWO32
  {
    if i < TWO32 then i else i % TWO32
  }

  /** One instruction, chosen by the high bits of its first byte. */
  ghost function Step(cb: Codebook, h: Handler, d: Decoder, data: seq<Byte>): (r: StepResult)
    requires d.table.size < TWO32 && data != []
  {
    var b := data[0];
    if b >= 128 then StepIndexed(cb, h, d, data)
    else if b >= 64 then StepLiteral(cb, h, d, IndexedTrue, data)
    else if b >= 32 then StepUpdate(d, data)
    else if b >= 16 then StepLiteral(cb, h, d, IndexedNever, data)
    else StepLiteral(cb, h, d, IndexedFalse, data)
  }

  // ----- Facts about one step

  lemma {:induction false} SetMaxSize32(t: Table, max: nat)
    requires t.size < TWO32
    ensures SetMax(t, max).size < TWO32
  {
    EvictLoopSize(t.entries, t.size, max);
  }

  lemma {:induction false} AddSize32(t: Table, f: Field)
    requires t.size < TWO32
    ensures Add(t, f).size < TWO32
  {
    EvictLoopSize(t.entries + [f], Plus32(t.size, HeaderFieldSize(f)), t.maxSize);
  }

  lemma {:induction false} EvictLoopSize(s: seq<Field>, size: nat, max: nat)
    requires size < TWO32
    ensures EvictLoop(s, size, max).1 < TWO32
  {
    if size > max && s != [] { EvictLoopSize(s[1..], Minus32(size, HeaderFieldSize(s[0])), max); }
  }

  lemma {:induction false} DecStringShrinks(cb: Codebook, data: seq<Byte>)
    ensures var r := DecString(cb, data); r.Decoded? ==> |r.rest| < |data|
  {
    DecIntegerMeaning(data, 7);
  }

  /** A finished step has consumed something and left the size a uint32. */
  lemma {:induction false} StepProgress(cb: Codebook, h: Handler, d: Decoder, data: seq<Byte>)
    requires d.table.size < TWO32 && data != []
    ensures var r := Step(cb, h, d, data);
      (r.Done? ==> |r.rest| < |data| && r.size < TWO32) && r.d.table.size < TWO32
      && r.d.n == d.n && r.d.err == d.err && r.d.leftover == d.leftover
  {
    var b := data[0];
    if b >= 128 {
      DecIntegerMeaning(data, 7);
    } else if 32 <= b < 64 {
      DecIntegerMeaning(data, 5);
      if DecInteger(data, 5).Int? { SetMaxSize32(d.table, Low32(DecInteger(data, 5).value)); }
    } else {
      var k := if b >= 64 then IndexedTrue else if b >= 16 then IndexedNever else IndexedFalse;
      LiteralProgress(cb, h, d, k, data);
    }
  }

  lemma {:induction false} LiteralProgress(cb: Codebook, h: Handler, d: Decoder, k: IndexType, data: seq<Byte>)
    requires d.table.size < TWO32 && data != []
    ensures var r := StepLiteral(cb, h, d, k, data);
      (r.Done? ==> |r.rest| < |data| && r.size < TWO32) && r.d.table.size < TWO32
      && r.d.n == d.n && r.d.err == d.err && r.d.leftover == d.leftover
  {
    DecIntegerMeaning(data, PrefixLen(k));
    var i := DecInteger(data, PrefixLen(k));
    if i.Int? {
      if i.value > 0 {
        var e := Entry(cb.statics, d.table, i.value);
        if e.Some? { ValueProgress(cb, h, d.(st := true), k, i.value, e.value.name, i.rest); }
      } else {
        DecStringShrinks(cb, i.rest);
        var s := DecString(cb, i.rest);
        if s.Decoded? { ValueProgress(cb, h, d.(st := true), k, 0, s.s, s.rest); }
      }
    }
  }

  lemma {:induction false} ValueProgress(cb: Codebook, h: Handler, d: Decoder, k: IndexType, idx: nat, name: Str, data: seq<Byte>)
    requires d.table.size < TWO32
    ensures var r := LiteralValue(cb, h, d, k, idx, name, data);
      (r.Done? ==> |r.rest| < |data| && r.size < TWO32) && r.d.table.size < TWO32
      && r.d.n == d.n && r.d.err == d.err && r.d.leftover == d.leftover
  {
    DecStringShrinks(cb, data);
    var s := DecString(cb, data);
    if s.Decoded? { AddSize32(d.table, Field(name, s.s)); }
  }

  // ----- Decoding a buffer

  /** Steps through the data; a step that needs more leaves its bytes for the next call. */
  ghost function DecodeLoop(cb: Codebook, h: Handler, limit: nat, d: Decoder, data: seq<Byte>): (r: Decoder)
    requires d.table.size < TWO32 && d.n < TWO32
    decreases |data|, 1
  {
    if data == [] then d
    else
      StepProgress(cb, h, d, data);
      Resume(cb, h, limit, data, Step(cb, h, d, data))
  }

  ghost function Resume(cb: Codebook, h: Handler, limit: nat, data: seq<Byte>, s: StepResult): (r: Decoder)
    requires s.d.table.size < TWO32 && s.d.n < TWO32
    requires s.Done? ==> s.size < TWO32 && |s.rest| < |data|
    decreases |data|, 0
  {
    match s
    case More(d1) => d1.(leftover := data)
    case Fail(d1, e) => d1.(err := Some(e))
    case Done(d1, n, rest) =>
      if limit == 0 then DecodeLoop(cb, h, limit, d1, rest)
      else if Plus32(d1.n, n) > limit then d1.(err := Some(TooLarge))
      else DecodeLoop(cb, h, limit, d1.(n := Plus32(d1.n, n)), rest)
  }

  /** One call of Decode with the next bytes of a block. */
  ghost function Decode(cb: Codebook, h: Handler, limit: nat, d: Decoder, block: seq<Byte>): (r: Decoder)
    requires d.table.size < TWO32 && d.n < TWO32
  {
    if d.err.Some? || block == [] then d
    else
      var data := d.leftover + block;
      var d0 := d.(leftover := []);
      if d.sizeChanged && !(32 <= data[0] < 64) then d0.(err := Some(UpdateRequired))
      else DecodeLoop(cb, h, limit, d0, data)
  }
}
