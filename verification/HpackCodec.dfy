/** The encoder and decoder objects: they update their fields step by step and do what the
    functions of module Hpack say. */
module HpackCodec {
  import opened Wrappers
  import opened Bits
  import opened IntegerCodec
  import opened Huffman
  import opened HuffmanTree
  import opened HeaderTable
  import opened HeaderIndex
  import opened Hpack

  ghost function HuffEnc(codes: seq<Code>, s: Str): (r: seq<Byte>) {
    if WellSized(codes) then Encoded(codes, s) else []
  }

  ghost function HuffDec(codes: seq<Code>, b: seq<Byte>): (r: Str) {
    if WellSized(codes) then DecodeBits(codes, BitsOf(b)) else []
  }

  ghost function BookOf(codes: seq<Code>, statics: seq<Field>): (cb: Codebook) {
    Codebook(s => HuffEnc(codes, s), b => HuffDec(codes, b), statics)
  }

  lemma {:induction false} EncStringOf(codes: seq<Code>, statics: seq<Field>, s: Str, h: HuffmanMode)
    requires WellSized(codes)
    ensures var e := Encoded(codes, s);
      EncString(BookOf(codes, statics), s, h) ==
      if h == HuffForce || (h == HuffAuto && |e| < |s|) then EncInteger(0x80, 7, |e|) + e else EncInteger(0x00, 7, |s|) + s
  {
    assert BookOf(codes, statics).huffEncode(s) == Encoded(codes, s);
  }

  class EncoderObject {
    const codes: seq<Code>
    const statics: seq<Field>
    const staticMap: map<Str, nat>
    var table: HeaderTableObject
    var minSize: nat
    var sizeChanged: bool
    var indexing: bool
    var huffman: HuffmanMode

    ghost predicate Valid()
      reads this, table, table.buf
    {
      && table.Valid()
      && WellSized(codes) && AllOnes(codes[EOS]) && codes[EOS].bits == 30
      && (forall name :: FirstName(statics, name) == if name in staticMap then staticMap[name] else 0)
      && (forall name :: name in staticMap ==> staticMap[name] > 0)
    }

    ghost function View(): (e: Encoder)
      requires table.Valid()
      reads this, table, table.buf
    {
      Encoder(table.View(), minSize, sizeChanged, indexing, huffman)
    }

    constructor (codes: seq<Code>, statics: seq<Field>, max: nat)
      requires GoodCodes(codes)
      ensures Valid() && fresh(table) && fresh(table.buf) && View() == NewEncoder(max)
      ensures this.codes == codes && this.statics == statics
    {
      this.codes, this.statics := codes, statics;
      var m := BuildStaticMap(statics);
      staticMap := m;
      minSize, sizeChanged, indexing, huffman := TWO32 - 1, false, true, HuffAuto;
      var t := new HeaderTableObject(max);
      table := t;
    }

    method SetMaxHeaderTableSize(max: nat)
      requires Valid()
      modifies this`minSize, this`sizeChanged, table`len, table`size, table`maxSize, table.buf
      ensures Valid() && View() == EncSetMax(old(View()), max)
    {
      if max < minSize {
        minSize := max;
      }
      sizeChanged := true;
      var changed := table.SetMaxSize(max);
    }

    method EncodeString(dst: seq<Byte>, s: Str) returns (r: seq<Byte>)
      requires Valid()
      ensures r == dst + EncString(BookOf(codes, statics), s, huffman)
    {
      var hlen := HuffmanEncodedLen(codes, s);
      EncStringOf(codes, statics, s, huffman);
      if huffman == HuffForce || (huffman == HuffAuto && hlen < |s|) {
        r := EncodeInteger(dst, 0x80, 7, hlen);
        r := HuffmanEncode(codes, r, s);
        Assoc(dst, EncInteger(0x80, 7, hlen), Encoded(codes, s));
      } else {
        r := EncodeInteger(dst, 0x00, 7, |s|);
        r := r + s;
        Assoc(dst, EncInteger(0x00, 7, |s|), s);
      }
    }

    method EncodeLiteral(dst: seq<Byte>, f: Field, k: IndexType, idx: nat) returns (hsize: nat, r: seq<Byte>)
      requires Valid()
      ensures r == dst + EncLiteral(BookOf(codes, statics), f, k, idx, huffman)
      ensures hsize == LiteralSize(f, idx)
    {
      ghost var cb := BookOf(codes, statics);
      ghost var i := EncInteger(Mask(k), PrefixLen(k), idx);
      ghost var name := if idx == 0 then EncString(cb, f.name, huffman) else [];
      ghost var value := EncString(cb, f.value, huffman);
      r := EncodeInteger(dst, Mask(k), PrefixLen(k), idx);
      if idx == 0 {
        r := EncodeString(r, f.name);
        hsize := HeaderFieldSize(f);
      } else {
        hsize := HeaderFieldSize(Field([], f.value));
      }
      Assoc(dst, i, name);
      assert r == dst + (i + name);
      r := EncodeString(r, f.value);
      Assoc(dst, i + name, value);
    }

    method EncodeHeaderField(dst: seq<Byte>, hf: HeaderField) returns (n: nat, r: seq<Byte>)
      requires Valid()
      modifies this`minSize, this`sizeChanged, table`buf, table`len, table`size, table.buf
      ensures Valid() && (table.buf == old(table.buf) || fresh(table.buf))
      ensures (View(), r, n) == (var x := EncField(BookOf(codes, statics), old(View()), hf); (x.0, dst + x.1, x.2))
    {
      ghost var cb := BookOf(codes, statics);
      ghost var e := View();
      r := WriteUpdates(dst);
      var f := Field(hf.name, hf.value);
      var repr := ChooseRepr(hf);
      assert repr == Choose(cb, e, hf);
      if repr.Indexed? {
        n := 0;
        r := EncodeInteger(r, 0x80, 7, repr.idx);
      } else {
        n, r := EncodeLiteral(r, f, repr.kind, repr.nameIdx);
        if repr.kind == IndexedTrue {
          var added := table.AddEntry(f);
        }
      }
      Assoc(dst, EncUpdates(e), EncRepr(cb, repr, f, huffman));
    }

    method WriteUpdates(dst: seq<Byte>) returns (r: seq<Byte>)
      requires Valid()
      modifies this`minSize, this`sizeChanged
      ensures Valid() && View() == ClearUpdates(old(View())) && r == dst + EncUpdates(old(View()))
    {
      ghost var e := View();
      r := dst;
      if sizeChanged {
        ghost var first := if minSize < table.maxSize then EncSizeUpdate(minSize) else [];
        ghost var last := EncSizeUpdate(table.maxSize);
        assert EncUpdates(e) == first + last;
        Assoc(dst, first, last);
        sizeChanged := false;
        if minSize < table.maxSize {
          r := EncodeInteger(r, 0x20, 5, minSize);
        }
        assert r == dst + first;
        minSize := TWO32 - 1;
        r := EncodeInteger(r, 0x20, 5, table.maxSize);
      } else {
        assert dst + EncUpdates(e) == dst;
      }
    }

    method ChooseRepr(hf: HeaderField) returns (r: Repr)
      requires Valid()
      ensures r == Choose(BookOf(codes, statics), View(), hf)
    {
      var f := Field(hf.name, hf.value);
      var hsize := HeaderFieldSize(f);
      if hf.sensitive {
        r := Literal(IndexedNever, 0);
      } else if table.maxSize == 0 {
        var x := StaticIndex(statics, staticMap, f);
        r := if x.matched then Indexed(x.idx) else Literal(IndexedFalse, x.idx);
      } else if hsize > table.maxSize {
        r := Literal(IndexedFalse, 0);
      } else {
        var t := Table(table.buf[..table.len], table.size, table.maxSize);
        var x := FindField(statics, staticMap, t, f);
        if x.matched {
          r := Indexed(x.idx);
        } else {
          r := Literal(if indexing then IndexedTrue else IndexedFalse, x.idx);
        }
      }
    }
  }

  datatype IntOutcome = IntOk(value: nat) | IntMore | IntOverflow

  datatype StrOutcome = StrOk(s: Str) | StrMore | StrBad

  datatype Outcome = StepOk(size: nat) | StepMore | StepError(error: DecodeError)

  class DecoderObject {
    const codes: seq<Code>
    const tree: Tree
    const statics: seq<Field>
    var table: HeaderTableObject
    var maxSize: nat
    var maxSizeLimit: nat
    var sizeChanged: bool
    var n: nat
    var err: Option<DecodeError>
    var data: seq<Byte>
    var b: seq<Byte>
    var st: bool
    var calls: seq<HeaderField>

    ghost predicate Valid()
      reads this, table, table.buf
    {
      table.Valid() && n < TWO32 && GoodCodes(codes) && IsTrie(codes, tree)
    }

    ghost function View(): (d: Decoder)
      requires table.Valid()
      reads this, table, table.buf
    {
      Decoder(table.View(), maxSize, maxSizeLimit, sizeChanged, n, err, b, st, calls)
    }

    ghost function Book(): (cb: Codebook) {
      BookOf(codes, statics)
    }

    constructor (codes: seq<Code>, statics: seq<Field>, max: nat)
      requires GoodCodes(codes)
      ensures Valid() && fresh(table) && fresh(table.buf) && View() == NewDecoder(max)
      ensures this.codes == codes && this.statics == statics
    {
      this.codes, this.statics := codes, statics;
      var t := NewHuffmanTree(codes);
      tree := t;
      maxSize, maxSizeLimit, sizeChanged := max, max, false;
      n, err, data, b, st, calls := 0, None, [], [], false, [];
      var tab := new HeaderTableObject(max);
      table := tab;
    }

    method SetMaxHeaderTableSize(max: nat)
      requires Valid()
      modifies this`maxSize, this`sizeChanged, table`len, table`size, table`maxSize, table.buf
      ensures Valid() && View() == DecSetMax(old(View()), max)
    {
      maxSize := max;
      if maxSize < maxSizeLimit {
        sizeChanged := true;
        var changed := table.SetMaxSize(max);
      }
    }

    method ResetBlock() returns (truncated: bool)
      requires Valid()
      modifies this`err, this`st, this`n, this`b
      ensures Valid() && (View(), truncated) == Reset(old(View()))
    {
      err := None;
      st := false;
      n := 0;
      truncated := false;
      if |b| > 0 {
        b := [];
        truncated := true;
      }
    }

    method TakeInteger(prefix: nat) returns (r: IntOutcome)
      requires 4 <= prefix <= 7
      modifies this`data
      ensures match DecInteger(old(data), prefix)
        case NeedsMore => r == IntMore
        case Overflow => r == IntOverflow
        case Int(i, rest) => r == IntOk(i) && data == rest
    {
      var x := DecodeInteger(data, prefix);
      match x
      case NeedsMore => r := IntMore;
      case Overflow => r := IntOverflow;
      case Int(i, rest) =>
        data := rest;
        r := IntOk(i);
    }

    /** The string that a payload stands for. */
    method Plain(huffman: bool, payload: seq<Byte>) returns (s: Str)
      requires Valid()
      ensures s == if huffman then Book().huffDecode(payload) else payload
    {
      if !huffman {
        return payload;
      }
      s := HuffmanDecode(codes, tree, [], payload);
      assert [] + DecodeBits(codes, BitsOf(payload)) == DecodeBits(codes, BitsOf(payload));
    }

    method TakeString() returns (r: StrOutcome)
      requires Valid()
      modifies this`data
      ensures match DecString(Book(), old(data))
        case StrNeedsMore => r == StrMore
        case StrOverflow => r == StrBad
        case Decoded(s, rest) => r == StrOk(s) && data == rest
    {
      if |data| == 0 {
        return StrMore;
      }
      var h := data[0] >= 128;
      var l := TakeInteger(7);
      match l
      case IntMore => r := StrMore;
      case IntOverflow => r := StrBad;
      case IntOk(len) =>
        if |data| < len {
          return StrMore;
        }
        var s := Plain(h, data[..len]);
        r := StrOk(s);
        data := data[len..];
    }

    method LookUp(idx: nat) returns (e: Option<Field>)
      requires Valid()
      ensures e == Entry(statics, table.View(), idx)
    {
      if !(idx > 0 && idx <= |statics| + table.len) {
        return None;
      }
      if idx <= |statics| {
        e := Some(statics[idx - 1]);
      } else {
        e := Some(table.buf[table.len - (idx - |statics|)]);
      }
    }

    /** The step a result of module Hpack describes has been taken. */
    ghost predicate Took(r: Outcome, s: StepResult, before: seq<Byte>)
      requires table.Valid()
      reads this, table, table.buf
    {
      match s
      case More(d) => r == StepMore && View() == d
      case Fail(d, e) => r == StepError(e) && View() == d
      case Done(d, size, rest) => r == StepOk(size) && View() == d && data == rest
    }

    method Call(h: Handler, hf: HeaderField, size: nat) returns (r: Outcome)
      requires Valid()
      modifies this`calls
      ensures Valid() && Took(r, Emit(h, old(View()), hf, size, data), data)
    {
      calls := calls + [hf];
      if h(calls) {
        r := StepOk(size);
      } else {
        r := StepError(HandlerError);
      }
    }

    method TakeIndexed(h: Handler) returns (r: Outcome)
      requires Valid()
      modifies this`st, this`data, this`calls
      ensures Valid() && Took(r, StepIndexed(Book(), h, old(View()), old(data)), old(data))
    {
      st := true;
      var idx := TakeInteger(7);
      match idx
      case IntMore => r := StepMore;
      case IntOverflow => r := StepError(IntegerOverflow);
      case IntOk(i) =>
        var e := LookUp(i);
        if e == None {
          return StepError(BadIndex);
        }
        r := Call(h, HeaderField(e.value.name, e.value.value, false), 0);
    }

    method TakeValue(h: Handler, k: IndexType, idx: nat, name: Str) returns (r: Outcome)
      requires Valid()
      modifies this`data, this`calls, table`buf, table`len, table`size, table.buf
      ensures Valid() && (table.buf == old(table.buf) || fresh(table.buf))
      ensures Took(r, LiteralValue(Book(), h, old(View()), k, idx, name, old(data)), old(data))
    {
      var v := TakeString();
      match v
      case StrMore => r := StepMore;
      case StrBad => r := StepError(IntegerOverflow);
      case StrOk(value) =>
        var f := Field(name, value);
        if k == IndexedTrue {
          var added := table.AddEntry(f);
        }
        r := Call(h, HeaderField(name, value, k == IndexedNever), LiteralSize(f, idx));
    }

    method TakeLiteral(h: Handler, k: IndexType) returns (r: Outcome)
      requires Valid()
      modifies this`st, this`data, this`calls, table`buf, table`len, table`size, table.buf
      ensures Valid() && (table.buf == old(table.buf) || fresh(table.buf))
      ensures Took(r, StepLiteral(Book(), h, old(View()), k, old(data)), old(data))
    {
      st := true;
      var idx := TakeInteger(PrefixLen(k));
      match idx
      case IntMore => r := StepMore;
      case IntOverflow => r := StepError(IntegerOverflow);
      case IntOk(i) => r := TakeName(h, k, i);
    }

    method TakeName(h: Handler, k: IndexType, i: nat) returns (r: Outcome)
      requires Valid()
      modifies this`data, this`calls, table`buf, table`len, table`size, table.buf
      ensures Valid() && (table.buf == old(table.buf) || fresh(table.buf))
      ensures Took(r, LiteralName(Book(), h, old(View()), k, i, old(data)), old(data))
    {
      if i > 0 {
        var e := LookUp(i);
        if e == None {
          return StepError(BadIndex);
        }
        r := TakeValue(h, k, i, e.value.name);
      } else {
        var s := TakeString();
        match s
        case StrMore => r := StepMore;
        case StrBad => r := StepError(IntegerOverflow);
        case StrOk(name) => r := TakeValue(h, k, 0, name);
      }
    }

    method TakeUpdate() returns (r: Outcome)
      requires Valid()
      modifies this`data, this`maxSizeLimit, this`sizeChanged, table`len, table`size, table`maxSize, table.buf
      ensures Valid() && Took(r, StepUpdate(old(View()), old(data)), old(data))
    {
      if st {
        return StepError(UpdateMisplaced);
      }
      var i := TakeInteger(5);
      match i
      case IntMore => r := StepMore;
      case IntOverflow => r := StepError(IntegerOverflow);
      case IntOk(x) =>
        var size := Low32(x);
        if size > maxSize {
          return StepError(BadTableSize);
        }
        maxSizeLimit := size;
        sizeChanged := false;
        var changed := table.SetMaxSize(size);
        r := StepOk(0);
    }

    /** One instruction; the data are put back if it needs more. */
    method DecodeOne(h: Handler) returns (r: Outcome)
      requires Valid() && data != []
      modifies this`st, this`data, this`calls, this`maxSizeLimit, this`sizeChanged
      modifies table`buf, table`len, table`size, table`maxSize, table.buf
      ensures Valid() && (table.buf == old(table.buf) || fresh(table.buf))
      ensures Took(r, Step(Book(), h, old(View()), old(data)), old(data))
      ensures r == StepMore ==> data == old(data)
    {
      ghost var s := Step(Book(), h, View(), data);
      var saved := data;
      r := Dispatch(h);
      assert Took(r, s, saved);
      if r == StepMore {
        data := saved;
      }
    }

    /** By the first byte. */
    method Dispatch(h: Handler) returns (r: Outcome)
      requires Valid() && data != []
      modifies this`st, this`data, this`calls, this`maxSizeLimit, this`sizeChanged
      modifies table`buf, table`len, table`size, table`maxSize, table.buf
      ensures Valid() && (table.buf == old(table.buf) || fresh(table.buf))
      ensures Took(r, Step(Book(), h, old(View()), old(data)), old(data))
    {
      var first := data[0];
      if first >= 128 {
        r := TakeIndexed(h);
      } else if first >= 64 {
        r := TakeLiteral(h, IndexedTrue);
      } else if first >= 32 {
        r := TakeUpdate();
      } else {
        r := TakeLiteral(h, if first >= 16 then IndexedNever else IndexedFalse);
      }
    }

    method DecodeBlock(block: seq<Byte>, limit: nat, h: Handler) returns (count: nat, e: Option<DecodeError>)
      requires Valid()
      modifies this, table, table.buf
      ensures Valid() && table == old(table) && (table.buf == old(table.buf) || fresh(table.buf))
      ensures View() == Decode(Book(), h, limit, old(View()), block)
      ensures count == n && e == err
    {
      if err != None || |block| == 0 {
        return n, err;
      }
      if |b| == 0 {
        data := block;
      } else {
        data := b + block;
        b := [];
      }
      assert data == old(b) + block;
      if sizeChanged && !(32 <= data[0] < 64) {
        err := Some(UpdateRequired);
        return n, err;
      }
      Loop(limit, h);
      return n, err;
    }

    method Loop(limit: nat, h: Handler)
      requires Valid() && err == None && b == []
      modifies this, table, table.buf
      ensures Valid() && table == old(table) && (table.buf == old(table.buf) || fresh(table.buf))
      ensures View() == DecodeLoop(Book(), h, limit, old(View()), old(data))
    {
      ghost var goal := DecodeLoop(Book(), h, limit, View(), data);
      while |data| > 0
        invariant Valid() && table == old(table) && (table.buf == old(table.buf) || fresh(table.buf))
        invariant err == None && b == []
        invariant DecodeLoop(Book(), h, limit, View(), data) == goal
        decreases |data|
      {
        var stop := Advance(limit, h);
        if stop {
          return;
        }
      }
    }

    /** One turn of the loop; it stops for more input and at errors. */
    method Advance(limit: nat, h: Handler) returns (stop: bool)
      requires Valid() && err == None && b == [] && data != []
      modifies this, table, table.buf
      ensures Valid() && table == old(table) && (table.buf == old(table.buf) || fresh(table.buf))
      ensures stop ==> View() == DecodeLoop(Book(), h, limit, old(View()), old(data))
      ensures !stop ==> err == None && b == [] && |data| < old(|data|)
      ensures !stop ==> DecodeLoop(Book(), h, limit, View(), data) == DecodeLoop(Book(), h, limit, old(View()), old(data))
    {
      StepProgress(Book(), h, View(), data);
      var r := DecodeOne(h);
      match r
      case StepMore =>
        b := data;
        stop := true;
      case StepError(e) =>
        err := Some(e);
        stop := true;
      case StepOk(size) =>
        stop := limit != 0 && Plus32(n, size) > limit;
        if stop {
          err := Some(TooLarge);
        } else if limit != 0 {
          n := Plus32(n, size);
        }
    }
  }
}
