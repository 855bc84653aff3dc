/** The layout of frames byte by byte (section 4.1 and section 6 of RFC 7540), what the reader accepts, and the
    way back: what becomes of a frame that is read and then written again. */
module FrameLayout {
  import opened Wrappers
  import opened Bits
  import opened Frames
  import R = FrameReader
  import S = SettingsList

  // ----- Bytes

  function Of2(a: nat, b: nat): (n: nat) {
    0x100 * a + b
  }

  function Of3(a: nat, b: nat, c: nat): (n: nat) {
    0x1_0000 * a + 0x100 * b + c
  }

  function Of4(a: nat, b: nat, c: nat, d: nat): (n: nat) {
    0x100_0000 * a + 0x1_0000 * b + 0x100 * c + d
  }

  lemma {:induction false} TwoFrom(s: seq<Byte>)
    requires |s| == 2
    ensures FromBigEndian(s) == Of2(s[0], s[1])
  {
    assert s[..1][..0] == [];
    assert FromBigEndian(s[..1]) == s[0];
  }

  lemma {:induction false} ThreeFrom(s: seq<Byte>)
    requires |s| == 3
    ensures FromBigEndian(s) == Of3(s[0], s[1], s[2])
  {
    TwoFrom(s[..2]);
  }

  lemma {:induction false} FourFrom(s: seq<Byte>)
    requires |s| == 4
    ensures FromBigEndian(s) == Of4(s[0], s[1], s[2], s[3])
  {
    ThreeFrom(s[..3]);
  }

  /** A frame is its length in three bytes, its type, its flags, its stream in four, and the payload. */
  lemma {:induction false} WireLayout(r: Raw)
    requires |r.payload| < TWO24 && r.id < TWO32
    ensures var w := Wire(r);
      && |w| == 9 + |r.payload|
      && Of3(w[0], w[1], w[2]) == |r.payload|
      && w[3] == r.kind && w[4] == r.flags
      && Of4(w[5], w[6], w[7], w[8]) == r.id
      && w[9..] == r.payload
  {
    Uint24(|r.payload|);
    Uint32(r.id);
    ThreeFrom(BigEndian(|r.payload|, 3));
    FourFrom(BigEndian(r.id, 4));
  }

  /** The reader takes the same bytes for the same fields, without the reserved bit. */
  lemma {:induction false} HeaderLayout(s: seq<Byte>)
    requires |s| >= 9
    ensures var h := ParseHeader(s);
      && h.len == Of3(s[0], s[1], s[2]) && h.kind == s[3] && h.flags == s[4]
      && h.id == Of4(if s[5] >= 128 then s[5] - 128 else s[5], s[6], s[7], s[8])
  {
    ThreeFrom(s[..3]);
    FourFrom(s[5..9]);
    ReservedBit(s[5], s[6], s[7], s[8]);
  }

  lemma {:induction false} ReservedBit(a: Byte, b: Byte, c: Byte, d: Byte)
    ensures Of4(a, b, c, d) % TWO31 == Of4(if a >= 128 then a - 128 else a, b, c, d)
  {
    assert Of4(0, b, c, d) < 0x100_0000;
    if a >= 128 { assert Of4(a, b, c, d) == TWO31 + Of4(a - 128, b, c, d); }
  }

  // ----- Types, flags and payloads

  /** Every frame is written under its number in section 11.2, with its flags of section 6 and no others. */
  lemma {:induction false} WrittenAs(f: Frame)
    requires Typed(f) && Write(f).Some?
    ensures var w := Write(f).value;
      match f
      case Data(id, end, pad, data) =>
        w.kind == 0 && w.id == id && w.flags == (if end then 0x1 else 0) + (if pad > 0 then 0x8 else 0)
        && (pad == 0 ==> w.payload == data)
        && (pad > 0 ==> |w.payload| == 1 + |data| + pad && w.payload[0] == pad && w.payload[1..1 + |data|] == data
                        && forall i :: 1 + |data| <= i < |w.payload| ==> w.payload[i] == 0)
      case Block(kind, flags, id, payload) => w == Raw(kind, flags, id, payload) && kind in {1, 5, 9}
      case Priority(id, dep, exclusive, weight) =>
        w.kind == 2 && w.id == id && w.flags == 0 && |w.payload| == 5 && w.payload[4] == weight
        && Of4(w.payload[0], w.payload[1], w.payload[2], w.payload[3]) ==
           dep + if exclusive then 0x8000_0000 else 0
      case RstStream(id, code) =>
        w.kind == 3 && w.id == id && w.flags == 0 && |w.payload| == 4 && FromBigEndian(w.payload) == code
      case Settings(ack, list) =>
        w.kind == 4 && w.id == 0 && w.flags == (if ack then 0x1 else 0) && |w.payload| == 6 * |list|
      case Ping(ack, data) => w.kind == 6 && w.id == 0 && w.flags == (if ack then 0x1 else 0) && w.payload == data
      case GoAway(last, code, debug) =>
        w.kind == 7 && w.id == 0 && w.flags == 0 && |w.payload| == 8 + |debug| && w.payload[8..] == debug
        && FromBigEndian(w.payload[..4]) == last % 0x8000_0000 && FromBigEndian(w.payload[4..8]) == code
      case WindowUpdate(id, increment) =>
        w.kind == 8 && w.id == id && w.flags == 0 && |w.payload| == 4 && FromBigEndian(w.payload) == increment
      case Unknown(kind, flags, id, payload) => w == Raw(kind, flags, id, payload)
  {
    match f
    case Priority(id, dep, exclusive, weight) =>
      var x := if exclusive then dep + TWO31 else dep;
      Uint32(x);
      FourFrom(BigEndian(x, 4));
    case RstStream(_, code) => Uint32(code);
    case GoAway(last, code, debug) => GoAwayPayload(last, code, debug);
    case WindowUpdate(_, increment) => Uint32(increment);
    case _ =>
  }

  lemma {:induction false} GoAwayPayload(last: nat, code: nat, debug: seq<Byte>)
    requires last < TWO32 && code < TWO32
    ensures var s := BigEndian(last % TWO31, 4) + BigEndian(code, 4) + debug;
      FromBigEndian(s[..4]) == last % TWO31 && FromBigEndian(s[4..8]) == code && s[8..] == debug && |s| == 8 + |debug|
  {
    var s := BigEndian(last % TWO31, 4) + BigEndian(code, 4) + debug;
    assert s[..4] == BigEndian(last % TWO31, 4) && s[4..8] == BigEndian(code, 4);
    Uint32(last % TWO31);
    Uint32(code);
  }

  /** The i-th setting stands at byte 6 * i. */
  lemma {:induction false} SettingAt(list: S.Settings, i: nat)
    requires i < |list| && list[i].id < TWO16 && list[i].value < TWO32
    ensures var s := SettingBytes(list);
      FromBigEndian(s[6 * i..6 * i + 2]) == list[i].id && FromBigEndian(s[6 * i + 2..6 * i + 6]) == list[i].value
    decreases i
  {
    var s, tail := SettingBytes(list), SettingBytes(list[1..]);
    if i == 0 {
      OneSetting(list[0], tail);
      assert s[0..2] == s[..2];
    } else {
      SettingAt(list[1..], i - 1);
      var k := 6 * (i - 1);
      assert |s| == 6 + |tail| && s[6..] == tail && 6 * i == 6 + k;
      SliceTail(s, k, k + 2);
      SliceTail(s, k + 2, k + 6);
    }
  }

  lemma {:induction false} SliceTail(s: seq<Byte>, a: nat, b: nat)
    requires 6 + b <= |s| && a <= b
    ensures s[6 + a..6 + b] == s[6..][a..b]
  {
    var t, u := s[6 + a..6 + b], s[6..][a..b];
    assert |t| == |u| && forall k :: 0 <= k < |t| ==> t[k] == s[6 + a + k] == u[k];
  }

  // ----- What is refused

  /** Frames that are not written: those without a valid stream, a priority on no stream, an acknowledgement that
      carries settings, and increments that are 0 or too large. */
  lemma {:induction false} RefusedIff(f: Frame)
    requires Typed(f)
    ensures Write(f) == None <==>
      || ((f.Data? || f.Priority? || f.RstStream?) && !(0 < f.id < 0x8000_0000))
      || (f.Priority? && !(0 < f.dep < 0x8000_0000))
      || (f.Settings? && f.ack && f.list != [])
      || (f.WindowUpdate? && !(0 < f.increment < 0x8000_0000))
  {
  }

  /** The settings of a payload are all valid. */
  predicate ValidPayload(s: seq<Byte>)
    requires |s| % 6 == 0
    decreases |s|
  {
    s == [] || (S.ValidValue(FromBigEndian(s[..2]), FromBigEndian(s[2..6])) && ValidPayload(s[6..]))
  }

  lemma {:induction false} ReadableSettings(cur: S.Settings, s: seq<Byte>)
    requires |s| % 6 == 0
    ensures ReadSettings(cur, s).List? <==> ValidPayload(s)
    decreases |s|
  {
    if s != [] { ReadableSettings(S.Put(cur, FromBigEndian(s[..2]), FromBigEndian(s[2..6])), s[6..]); }
  }

  predicate OnStream(kind: Byte) {
    kind <= 3 || kind == 5 || kind == 9
  }

  /** The stream is 0 for SETTINGS, PING and GOAWAY, and not for DATA, HEADERS, PRIORITY, RST_STREAM, PUSH_PROMISE
      and CONTINUATION. */
  predicate StreamFits(r: Raw) {
    (OnStream(r.kind) ==> r.id != 0) && (r.kind == 4 || r.kind == 6 || r.kind == 7 ==> r.id == 0)
  }

  /** The payload has the length of its type. */
  predicate LengthFits(r: Raw) {
    var s := r.payload;
    && (r.kind == 2 ==> |s| == 5)
    && (r.kind == 3 || r.kind == 8 ==> |s| == 4)
    && (r.kind == 4 ==> if r.flags % 2 == 1 then |s| == 0 else |s| % 6 == 0)
    && (r.kind == 6 ==> |s| == 8)
    && (r.kind == 7 ==> |s| >= 8)
  }

  /** The padding of DATA is shorter than the payload, settings are valid, and increments are not 0. */
  predicate ContentFits(r: Raw)
    requires LengthFits(r)
  {
    var s := r.payload;
    && (r.kind == 0 && r.flags / 8 % 2 == 1 ==> s != [] && s[0] < |s|)
    && (r.kind == 4 && r.flags % 2 == 0 ==> ValidPayload(s))
    && (r.kind == 8 ==> FromBigEndian(s) % TWO31 != 0)
  }

  /** A frame is accepted if and only if stream, length and content fit its type. One that is not ends the
      connection, except a PRIORITY frame of the wrong length and an increment of 0 on a stream, which are
      errors of that stream only. */
  lemma {:induction false} AcceptedIff(r: Raw)
    ensures Parse(r).Ok? <==> StreamFits(r) && LengthFits(r) && ContentFits(r)
    ensures Parse(r).Bad? ==>
      (Parse(r).e.StreamError? <==> r.id != 0 && (r.kind == 2 || (r.kind == 8 && |r.payload| == 4)))
    ensures Parse(r).Bad? && Parse(r).e.StreamError? ==>
      Parse(r).e == StreamError(if r.kind == 2 then ErrCode.FrameSize else ErrCode.Protocol, r.id)
  {
    if r.kind == 4 && r.id == 0 && |r.payload| % 6 == 0 { ReadableSettings([], r.payload); }
  }

  /** A DATA frame is accepted lazily exactly as it would be in whole, and then hands out the same data, with the
      next frame behind its padding. */
  lemma {:induction false} LazyData(r: Raw, tail: seq<Byte>)
    requires r.kind == 0
    ensures var o, p := R.OpenData(Header(|r.payload|, r.kind, r.flags, r.id), r.payload + tail), Parse(r);
      && (o.Got? <==> p.Ok?)
      && (p.Ok? ==> o.h == R.HeadOf(p.f) && o.r.n == |p.f.data| && o.r.p == p.f.pad
                    && |o.r.input| == o.r.n + o.r.p + |tail| && o.r.input[..o.r.n] == p.f.data && o.r.input[o.r.n + o.r.p..] == tail)
  {
    var s, all := r.payload, r.payload + tail;
    assert s != [] ==> all[0] == s[0] && all[1..] == s[1..] + tail;
  }

  // ----- Written again

  lemma {:induction false} BigEndianBack(s: seq<Byte>)
    ensures BigEndian(FromBigEndian(s), |s|) == s
    decreases |s|
  {
    if s != [] {
      var front := s[..|s| - 1];
      BigEndianBack(front);
      assert FromBigEndian(s) / 256 == FromBigEndian(front);
      assert s == front + [s[|s| - 1]];
    }
  }

  /** A PRIORITY frame that depends on stream 0, as streams do by default. */
  predicate DependsOnRoot(r: Raw) {
    r.kind == 2 && |r.payload| == 5 && FromBigEndian(r.payload[..4]) % TWO31 == 0
  }

  /** The bits that are not kept: the reserved bits of GOAWAY and WINDOW_UPDATE. */
  predicate ReservedClear(r: Raw) {
    (r.kind == 7 && |r.payload| >= 8) || (r.kind == 8 && |r.payload| == 4) ==> FromBigEndian(r.payload[..4]) < TWO31
  }

  /** Any frame that is read can be written again, except a PRIORITY frame that depends on stream 0. Apart from
      DATA and SETTINGS its payload is the same if and only if the reserved bits are clear. */
  lemma {:induction false} WrittenAgainIff(r: Raw)
    requires r.id < TWO31 && Parse(r).Ok?
    ensures Typed(Parse(r).f)
    ensures Write(Parse(r).f).Some? <==> !DependsOnRoot(r)
    ensures Write(Parse(r).f).Some? ==>
      var w := Write(Parse(r).f).value;
      && w.kind == r.kind && w.id == r.id
      && (r.kind != 0 && r.kind != 4 ==> (w.payload == r.payload <==> ReservedClear(r)))
  {
    var s := r.payload;
    if r.kind == 2 {
      PriorityAgain(r);
    } else if r.kind == 3 {
      ResetAgain(r);
    } else if r.kind == 8 {
      assert s[..4] == s;
      IncrementAgain(r);
    } else if r.kind == 7 {
      GoAwayAgain(r);
    } else if r.kind == 4 {
      SettingsAgain(r);
    }
  }

  lemma {:induction false} PriorityAgain(r: Raw)
    requires r.kind == 2 && r.id < TWO31 && Parse(r).Ok?
    ensures Typed(Parse(r).f) && (Write(Parse(r).f).Some? <==> !DependsOnRoot(r))
    ensures Write(Parse(r).f).Some? ==> Write(Parse(r).f).value == Raw(PRIORITY, 0, r.id, r.payload)
  {
    var s := r.payload;
    var x := FromBigEndian(s[..4]);
    FourFrom(s[..4]);
    BigEndianBack(s[..4]);
    assert x == if x % TWO31 != x then x % TWO31 + TWO31 else x % TWO31;
    assert s[..4] + [s[4]] == s;
  }

  lemma {:induction false} ResetAgain(r: Raw)
    requires r.kind == 3 && r.id < TWO31 && Parse(r).Ok?
    ensures Typed(Parse(r).f) && Write(Parse(r).f) == Some(Raw(RST_STREAM, 0, r.id, r.payload))
  {
    FourFrom(r.payload);
    BigEndianBack(r.payload);
  }

  lemma {:induction false} IncrementAgain(r: Raw)
    requires r.kind == 8 && r.id < TWO31 && Parse(r).Ok?
    ensures Typed(Parse(r).f) && Write(Parse(r).f).Some?
    ensures var w := Write(Parse(r).f).value;
      w.kind == r.kind && w.id == r.id && (w.payload == r.payload <==> FromBigEndian(r.payload) < TWO31)
  {
    var n := FromBigEndian(r.payload) % TWO31;
    Widths();
    IncrementWritten(r.id, n);
    SameNumber(r.payload, 4, n);
  }

  lemma {:induction false} IncrementWritten(id: nat, n: nat)
    requires id < TWO31 && 0 < n < TWO31
    ensures Typed(WindowUpdate(id, n)) && Write(WindowUpdate(id, n)) == Some(Raw(WINDOW_UPDATE, 0, id, BigEndian(n, 4)))
  {
  }

  lemma {:induction false} GoAwayAgain(r: Raw)
    requires r.kind == 7 && r.id < TWO31 && Parse(r).Ok?
    ensures Typed(Parse(r).f) && Write(Parse(r).f).Some?
    ensures var w := Write(Parse(r).f).value;
      w.kind == r.kind && w.id == r.id && (w.payload == r.payload <==> FromBigEndian(r.payload[..4]) < TWO31)
  {
    var s := r.payload;
    var last := FromBigEndian(s[..4]);
    GoAwayParsed(r);
    GoAwayWritten(last % TWO31, FromBigEndian(s[4..8]), s[8..]);
    assert s == s[..4] + s[4..8] + s[8..];
    Widths();
    SameNumbers(s[..4], s[4..8], s[8..], 4, last % TWO31);
  }

  lemma {:induction false} GoAwayParsed(r: Raw)
    requires r.kind == 7 && Parse(r).Ok?
    ensures var s := r.payload;
      && |s| >= 8 && r.id == 0 && FromBigEndian(s[..4]) < TWO32 && FromBigEndian(s[4..8]) < TWO32
      && Parse(r) == Ok(GoAway(FromBigEndian(s[..4]) % TWO31, FromBigEndian(s[4..8]), s[8..]))
  {
    FourFrom(r.payload[..4]);
    FourFrom(r.payload[4..8]);
  }

  lemma {:induction false} GoAwayWritten(last: nat, code: nat, debug: seq<Byte>)
    requires last < TWO31 && code < TWO32
    ensures Typed(GoAway(last, code, debug))
    ensures Write(GoAway(last, code, debug)) == Some(Raw(GOAWAY, 0, 0, BigEndian(last, 4) + BigEndian(code, 4) + debug))
  {
  }

  /** Numbers of the width k and what follows them are the same bytes exactly if the first number is. */
  lemma {:induction false} SameNumbers(a: seq<Byte>, b: seq<Byte>, rest: seq<Byte>, k: nat, v: nat)
    requires |a| == |b| == k && v < Pow256(k)
    ensures BigEndian(v, k) + BigEndian(FromBigEndian(b), k) + rest == a + b + rest <==> v == FromBigEndian(a)
  {
    BigEndianBack(b);
    SameNumber(a, k, v);
    SameFront(BigEndian(v, k), a, b, rest);
  }

  lemma {:induction false} SameNumber(s: seq<Byte>, k: nat, v: nat)
    requires |s| == k && v < Pow256(k)
    ensures BigEndian(v, k) == s <==> v == FromBigEndian(s)
  {
    BigEndianBack(s);
    BigEndianRoundTrip(v, k);
  }

  lemma {:induction false} SameFront(x: seq<Byte>, a: seq<Byte>, b: seq<Byte>, c: seq<Byte>)
    requires |x| == |a|
    ensures x + b + c == a + b + c <==> x == a
  {
    assert (x + b + c)[..|x|] == x && (a + b + c)[..|a|] == a;
  }

  lemma {:induction false} SettingsAgain(r: Raw)
    requires r.kind == 4 && Parse(r).Ok?
    ensures Typed(Parse(r).f) && Write(Parse(r).f).Some? && Write(Parse(r).f).value.kind == 4 && Write(Parse(r).f).value.id == r.id
  {
    if r.flags % 2 == 0 { ReadTyped([], r.payload); }
  }

  predicate TypedList(list: S.Settings) {
    forall x :: x in list ==> x.id < TWO16 && x.value < TWO32
  }

  lemma {:induction false} ReadTyped(cur: S.Settings, s: seq<Byte>)
    requires |s| % 6 == 0 && TypedList(cur)
    ensures ReadSettings(cur, s).List? ==> TypedList(ReadSettings(cur, s).s)
    decreases |s|
  {
    if s != [] {
      TwoFrom(s[..2]);
      FourFrom(s[2..6]);
      PutTyped(cur, FromBigEndian(s[..2]), FromBigEndian(s[2..6]));
      ReadTyped(S.Put(cur, FromBigEndian(s[..2]), FromBigEndian(s[2..6])), s[6..]);
    }
  }

  lemma {:induction false} PutTyped(s: S.Settings, id: nat, value: nat)
    requires TypedList(s) && id < TWO16 && value < TWO32
    ensures TypedList(S.Put(s, id, value))
  {
    if s != [] && s[0].id != id { PutTyped(s[1..], id, value); }
  }
}
