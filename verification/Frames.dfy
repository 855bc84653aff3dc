/** Frames on the wire (section 4.1 and section 6 of RFC 7540): the writers of each type, the frame
    reader with its lazily read payloads, and the round trip of whole sequences of frames. */
module Frames {
  import opened Wrappers
  import opened Bits
  import S = SettingsList

  const TWO16: nat := 0x1_0000
  const TWO24: nat := 0x100_0000

  // ----- Big-endian numbers

  /** The low k bytes of v, most significant first. */
  function BigEndian(v: nat, k: nat): (s: seq<Byte>)
    ensures |s| == k
  {
    if k == 0 then []
    else
      var b: Byte := v % 256;
      BigEndian(v / 256, k - 1) + [b]
  }

  function FromBigEndian(s: seq<Byte>): (v: nat) {
    if s == [] then 0 else 256 * FromBigEndian(s[..|s| - 1]) + s[|s| - 1]
  }

  function Pow256(k: nat): (p: nat) {
    if k == 0 then 1 else 256 * Pow256(k - 1)
  }

  lemma {:induction false} BigEndianRoundTrip(v: nat, k: nat)
    requires v < Pow256(k)
    ensures FromBigEndian(BigEndian(v, k)) == v
  {
    if k > 0 {
      BigEndianRoundTrip(v / 256, k - 1);
      assert BigEndian(v, k)[..k - 1] == BigEndian(v / 256, k - 1);
    }
  }

  lemma {:induction false} Widths()
    ensures Pow256(2) == TWO16 && Pow256(3) == TWO24 && Pow256(4) == TWO32
  {
    assert Pow256(1) == 256 * Pow256(0);
    assert Pow256(2) == 256 * Pow256(1);
    assert Pow256(3) == 256 * Pow256(2);
    assert Pow256(4) == 256 * Pow256(3);
  }

  lemma {:induction false} Uint16(v: nat)
    requires v < TWO16
    ensures FromBigEndian(BigEndian(v, 2)) == v
  {
    Widths();
    BigEndianRoundTrip(v, 2);
  }

  lemma {:induction false} Uint24(v: nat)
    requires v < TWO24
    ensures FromBigEndian(BigEndian(v, 3)) == v
  {
    Widths();
    BigEndianRoundTrip(v, 3);
  }

  lemma {:induction false} Uint32(v: nat)
    requires v < TWO32
    ensures FromBigEndian(BigEndian(v, 4)) == v
  {
    Widths();
    BigEndianRoundTrip(v, 4);
  }

  // ----- Frame headers

  const DATA: Byte := 0
  const HEADERS: Byte := 1
  const PRIORITY: Byte := 2
  const RST_STREAM: Byte := 3
  const SETTINGS: Byte := 4
  const PUSH_PROMISE: Byte := 5
  const PING: Byte := 6
  const GOAWAY: Byte := 7
  const WINDOW_UPDATE: Byte := 8
  const CONTINUATION: Byte := 9

  /** END_STREAM and ACK are bit 0, END_HEADERS bit 2, PADDED bit 3, PRIORITY bit 5. */
  function Flags(first: bool, endHeaders: bool, padded: bool, priority: bool): (b: Byte) {
    (if first then 1 else 0) + (if endHeaders then 4 else 0) + (if padded then 8 else 0) + (if priority then 32 else 0)
  }

  predicate HasFirst(flags: Byte) { flags % 2 == 1 }

  predicate HasEndHeaders(flags: Byte) { flags / 4 % 2 == 1 }

  predicate HasPadded(flags: Byte) { flags / 8 % 2 == 1 }

  predicate HasPriority(flags: Byte) { flags / 32 % 2 == 1 }

  lemma {:induction false} FlagsRead(first: bool, endHeaders: bool, padded: bool, priority: bool)
    ensures var b := Flags(first, endHeaders, padded, priority);
      HasFirst(b) == first && HasEndHeaders(b) == endHeaders && HasPadded(b) == padded && HasPriority(b) == priority
  {
  }

  /** A frame as its header and payload. */
  datatype Raw = Raw(kind: Byte, flags: Byte, id: nat, payload: seq<Byte>)

  function HeaderBytes(len: nat, kind: Byte, flags: Byte, id: nat): (s: seq<Byte>)
    ensures |s| == 9
  {
    BigEndian(len, 3) + [kind, flags] + BigEndian(id, 4)
  }

  function Wire(r: Raw): (s: seq<Byte>) {
    HeaderBytes(|r.payload|, r.kind, r.flags, r.id) + r.payload
  }

  datatype Header = Header(len: nat, kind: Byte, flags: Byte, id: nat)

  /** The reserved bit in front of the stream identifier is ignored. */
  function ParseHeader(s: seq<Byte>): (h: Header)
    requires |s| >= 9
  {
    Header(FromBigEndian(s[..3]), s[3], s[4], FromBigEndian(s[5..9]) % TWO31)
  }

  lemma {:induction false} HeaderRoundTrip(len: nat, kind: Byte, flags: Byte, id: nat, rest: seq<Byte>)
    requires len < TWO24 && id < TWO32
    ensures ParseHeader(HeaderBytes(len, kind, flags, id) + rest) == Header(len, kind, flags, id % TWO31)
  {
    var s := HeaderBytes(len, kind, flags, id) + rest;
    assert s[..3] == BigEndian(len, 3) && s[5..9] == BigEndian(id, 4);
    Uint24(len);
    Uint32(id);
  }

  // ----- Frames by type

  /** Block stands for HEADERS, PUSH_PROMISE and CONTINUATION, whose payload is a header block. */
  datatype Frame =
    | Data(id: nat, endStream: bool, pad: nat, data: seq<Byte>)
    | Block(kind: Byte, flags: Byte, id: nat, payload: seq<Byte>)
    | Priority(id: nat, dep: nat, exclusive: bool, weight: Byte)
    | RstStream(id: nat, code: nat)
    | Settings(ack: bool, list: S.Settings)
    | Ping(ack: bool, data: seq<Byte>)
    | GoAway(last: nat, code: nat, debug: seq<Byte>)
    | WindowUpdate(id: nat, increment: nat)
    | Unknown(kind: Byte, flags: Byte, id: nat, payload: seq<Byte>)

  /** The Go types of the fields. */
  ghost predicate Typed(f: Frame) {
    match f
    case Data(id, _, pad, _) => id < TWO32 && pad < 256
    case Block(kind, _, id, _) => (kind == HEADERS || kind == PUSH_PROMISE || kind == CONTINUATION) && 0 < id < TWO31
    case Priority(id, dep, _, _) => id < TWO32 && dep < TWO32
    case RstStream(id, code) => id < TWO32 && code < TWO32
    case Settings(_, list) => forall x :: x in list ==> x.id < TWO16 && x.value < TWO32
    case Ping(_, data) => |data| == 8
    case GoAway(last, code, _) => last < TWO32 && code < TWO32
    case WindowUpdate(id, increment) => id < TWO32 && increment < TWO32
    case Unknown(_, _, id, _) => id < TWO32
  }

  function Zeros(n: nat): (s: seq<Byte>)
    ensures |s| == n
  {
    seq(n, _ => 0)
  }

  predicate ValidStreamId(id: nat) {
    0 < id < TWO31
  }

  function SettingBytes(list: S.Settings): (s: seq<Byte>)
    ensures |s| == 6 * |list|
  {
    if list == [] then [] else BigEndian(list[0].id, 2) + BigEndian(list[0].value, 4) + SettingBytes(list[1..])
  }

  /** Pad Length octet, data and padding. */
  function DataPayload(data: seq<Byte>, pad: nat): (s: seq<Byte>)
    requires pad < 256
  {
    if pad > 0 then
      var b: Byte := pad;
      [b] + data + Zeros(pad)
    else data
  }

  function PriorityPayload(dep: nat, exclusive: bool, weight: Byte): (s: seq<Byte>)
    ensures |s| == 5
  {
    BigEndian(if exclusive then dep + TWO31 else dep, 4) + [weight]
  }

  /** writeTo of each type; None where it refuses. A DATA frame is taken to fit one frame. */
  function Write(f: Frame): (r: Option<Raw>)
    requires Typed(f)
  {
    match f
    case Data(id, endStream, pad, data) =>
      if !ValidStreamId(id) then None
      else Some(Raw(DATA, Flags(endStream, false, pad > 0, false), id, DataPayload(data, pad)))
    case Block(kind, flags, id, payload) => Some(Raw(kind, flags, id, payload))
    case Priority(id, dep, exclusive, weight) =>
      if !ValidStreamId(id) || !ValidStreamId(dep) then None
      else Some(Raw(PRIORITY, 0, id, PriorityPayload(dep, exclusive, weight)))
    case RstStream(id, code) =>
      if !ValidStreamId(id) then None else Some(Raw(RST_STREAM, 0, id, BigEndian(code, 4)))
    case Settings(ack, list) =>
      if ack && list != [] then None
      else Some(Raw(SETTINGS, Flags(ack, false, false, false), 0, SettingBytes(list)))
    case Ping(ack, data) => Some(Raw(PING, Flags(ack, false, false, false), 0, data))
    case GoAway(last, code, debug) =>
      Some(Raw(GOAWAY, 0, 0, BigEndian(last % TWO31, 4) + BigEndian(code, 4) + debug))
    case WindowUpdate(id, increment) =>
      if increment == 0 || increment >= TWO31 then None
      else Some(Raw(WINDOW_UPDATE, 0, id, BigEndian(increment, 4)))
    case Unknown(kind, flags, id, payload) => Some(Raw(kind, flags, id, payload))
  }

  datatype ErrCode = Protocol | FlowControl | FrameSize

  datatype ReadError = ConnError(code: ErrCode) | StreamError(code: ErrCode, id: nat)

  datatype Parsed = Ok(f: Frame) | Bad(e: ReadError)

  /** Values replaced or appended one by one, as SetValue does, up to the first invalid one. */
  datatype SettingsResult = List(s: S.Settings) | Invalid(id: nat)

  function ReadSettings(cur: S.Settings, s: seq<Byte>): (r: SettingsResult)
    requires |s| % 6 == 0
    decreases |s|
  {
    if s == [] then List(cur)
    else
      var id, value := FromBigEndian(s[..2]), FromBigEndian(s[2..6]);
      if S.ValidValue(id, value) then ReadSettings(S.Put(cur, id, value), s[6..]) else Invalid(id)
  }

  /** Length of the padding, and of the data of a DATA payload with the given first byte. */
  function Padding(flags: Byte, s: seq<Byte>): (n: nat) {
    if HasPadded(flags) && s != [] then s[0] else 0
  }

  function ParseData(r: Raw): (p: Parsed) {
    var s, pad := r.payload, Padding(r.flags, r.payload);
    if r.id == 0 then Bad(ConnError(Protocol))
    else if !HasPadded(r.flags) then Ok(Data(r.id, HasFirst(r.flags), 0, s))
    else if pad >= |s| then Bad(ConnError(Protocol))
    else Ok(Data(r.id, HasFirst(r.flags), pad, s[1..|s| - pad]))
  }

  /** readFrom of each type, given the whole payload. */
  function Parse(r: Raw): (p: Parsed) {
    var h, s := r.kind, r.payload;
    if h == DATA then ParseData(r)
    else if h == HEADERS || h == PUSH_PROMISE || h == CONTINUATION then
      if r.id == 0 then Bad(ConnError(Protocol)) else Ok(Block(h, r.flags, r.id, s))
    else if h == PRIORITY then
      if r.id == 0 then Bad(ConnError(Protocol))
      else if |s| != 5 then Bad(StreamError(FrameSize, r.id))
      else
        var x := FromBigEndian(s[..4]);
        Ok(Priority(r.id, x % TWO31, x % TWO31 != x, s[4]))
    else if h == RST_STREAM then
      if r.id == 0 then Bad(ConnError(Protocol))
      else if |s| != 4 then Bad(ConnError(FrameSize))
      else Ok(RstStream(r.id, FromBigEndian(s)))
    else if h == SETTINGS then ParseSettings(r)
    else if h == PING then
      if r.id != 0 then Bad(ConnError(Protocol))
      else if |s| != 8 then Bad(ConnError(FrameSize))
      else Ok(Ping(HasFirst(r.flags), s))
    else if h == GOAWAY then
      if r.id != 0 then Bad(ConnError(Protocol))
      else if |s| < 8 then Bad(ConnError(Protocol))
      else Ok(GoAway(FromBigEndian(s[..4]) % TWO31, FromBigEndian(s[4..8]), s[8..]))
    else if h == WINDOW_UPDATE then
      if |s| != 4 then Bad(ConnError(FrameSize))
      else
        var n := FromBigEndian(s) % TWO31;
        if n > 0 then Ok(WindowUpdate(r.id, n))
        else if r.id == 0 then Bad(ConnError(Protocol))
        else Bad(StreamError(Protocol, r.id))
    else Ok(Unknown(h, r.flags, r.id, s))
  }

  function ParseSettings(r: Raw): (p: Parsed) {
    if r.id != 0 then Bad(ConnError(Protocol))
    else if HasFirst(r.flags) then
      if r.payload != [] then Bad(ConnError(FrameSize)) else Ok(Settings(true, []))
    else if |r.payload| % 6 != 0 then Bad(ConnError(FrameSize))
    else
      match ReadSettings([], r.payload)
      case List(list) => Ok(Settings(false, list))
      case Invalid(id) =>
        Bad(ConnError(if id == S.INITIAL_WINDOW_SIZE then FlowControl
                      else if id == S.MAX_FRAME_SIZE then FrameSize else Protocol))
  }

  // ----- SETTINGS

  lemma {:induction false} OneSetting(x: S.Setting, tail: seq<Byte>)
    requires x.id < TWO16 && x.value < TWO32
    ensures var s := BigEndian(x.id, 2) + BigEndian(x.value, 4) + tail;
      FromBigEndian(s[..2]) == x.id && FromBigEndian(s[2..6]) == x.value && s[6..] == tail
  {
    var s := BigEndian(x.id, 2) + BigEndian(x.value, 4) + tail;
    assert s[..2] == BigEndian(x.id, 2) && s[2..6] == BigEndian(x.value, 4) && s[6..] == tail;
    Uint16(x.id);
    Uint32(x.value);
  }

  lemma {:induction false} SettingsRead(cur: S.Settings, list: S.Settings)
    requires forall x :: x in list ==> x.id < TWO16 && x.value < TWO32
    ensures S.ValidValues(list) ==> ReadSettings(cur, SettingBytes(list)) == List(S.PutAll(cur, list))
    ensures !S.ValidValues(list) ==> ReadSettings(cur, SettingBytes(list)).Invalid?
    decreases |list|
  {
    if list != [] {
      var x, tail := list[0], list[1..];
      OneSetting(x, SettingBytes(tail));
      SettingsRead(S.Put(cur, x.id, x.value), tail);
      assert S.ValidValues(list) <==> S.ValidValue(x.id, x.value) && S.ValidValues(tail) by {
        if S.ValidValue(x.id, x.value) && S.ValidValues(tail) {
          forall i | 0 <= i < |list| ensures S.ValidValue(list[i].id, list[i].value) {
            if i > 0 { assert list[i] == tail[i - 1]; }
          }
        }
      }
    }
  }

  method WriteSettings(list: S.Settings) returns (buf: seq<Byte>)
    ensures buf == SettingBytes(list)
  {
    buf := [];
    var i := 0;
    while i < |list|
      invariant 0 <= i <= |list| && buf + SettingBytes(list[i..]) == SettingBytes(list)
    {
      var x := BigEndian(list[i].id, 2) + BigEndian(list[i].value, 4);
      assert list[i..][1..] == list[i + 1..];
      Assoc(buf, x, SettingBytes(list[i + 1..]));
      buf := buf + x;
      i := i + 1;
    }
  }

  method ReadSettingsLoop(s: seq<Byte>) returns (r: SettingsResult)
    requires |s| % 6 == 0
    ensures r == ReadSettings([], s)
  {
    var rest := s;
    var settings := new S.SettingsObject([]);
    while rest != []
      invariant |rest| % 6 == 0 && ReadSettings(settings.list, rest) == ReadSettings([], s)
      decreases |rest|
    {
      var id, value := FromBigEndian(rest[..2]), FromBigEndian(rest[2..6]);
      rest := rest[6..];
      var ok := settings.SetValue(id, value);
      if !ok { return Invalid(id); }
    }
    r := List(settings.list);
  }

  // ----- Round trip of one frame

  /** What the wire format can carry: no reserved bits set, no repeated or invalid setting, and no
      known type disguised as an unknown one. */
  predicate Representable(f: Frame) {
    match f
    case GoAway(last, _, _) => last < TWO31
    case WindowUpdate(id, _) => id < TWO31
    case Settings(_, list) => S.Distinct(list) && S.ValidValues(list)
    case Unknown(kind, _, id, _) => kind > 9 && id < TWO31
    case _ => true
  }

  function Received(r: Raw): (r': Raw) {
    r.(id := r.id % TWO31)
  }

  ghost predicate Survives(f: Frame)
    requires Typed(f) && Write(f).Some?
  {
    Parse(Received(Write(f).value)) == Ok(f)
  }

  /** Whatever can be written is read back the same exactly if it is representable. */
  lemma {:induction false} FrameRoundTrip(f: Frame)
    requires Typed(f) && Write(f).Some?
    ensures Survives(f) <==> Representable(f)
  {
    match f
    case Data(_, _, _, _) => StreamFrameSurvives(f);
    case Block(_, _, _, _) => StreamFrameSurvives(f);
    case Priority(_, _, _, _) => StreamFrameSurvives(f);
    case RstStream(_, _) => StreamFrameSurvives(f);
    case Settings(ack, list) => SettingsRoundTrip(ack, list);
    case Ping(_, _) => PingSurvives(f);
    case GoAway(last, code, debug) => GoAwayRoundTrip(last, code, debug);
    case WindowUpdate(_, _) => WindowUpdateSurvives(f);
    case Unknown(_, _, _, _) => UnknownRoundTrip(f);
  }

  /** What the wire can carry to the reader: as before, but settings may repeat an identifier. */
  predicate Carried(f: Frame) {
    if f.Settings? then S.ValidValues(f.list) else Representable(f)
  }

  /** The frame that the reader returns: repeated settings are overwritten. */
  function AsRead(f: Frame): (r: Frame) {
    if f.Settings? && !f.ack then Settings(false, S.PutAll([], f.list)) else f
  }

  lemma {:induction false} SettingsReadAs(list: S.Settings)
    requires (forall x :: x in list ==> x.id < TWO16 && x.value < TWO32) && S.ValidValues(list)
    ensures ParseSettings(Raw(SETTINGS, Flags(false, false, false, false), 0, SettingBytes(list))) ==
            Ok(Settings(false, S.PutAll([], list)))
  {
    FlagsRead(false, false, false, false);
    SettingsRead([], list);
    assert |SettingBytes(list)| % 6 == 0;
  }

  /** Everything the wire can carry is read, repeated settings as their last values. */
  lemma {:induction false} FrameReadAs(f: Frame)
    requires Typed(f) && Write(f).Some? && Carried(f)
    ensures Parse(Received(Write(f).value)) == Ok(AsRead(f))
  {
    if f.Settings? && !f.ack {
      SettingsReadAs(f.list);
    } else if f.Settings? {
      SettingsRoundTrip(true, []);
    } else {
      FrameRoundTrip(f);
    }
  }

  lemma {:induction false} StreamFrameSurvives(f: Frame)
    requires Typed(f) && Write(f).Some? && (f.Data? || f.Block? || f.Priority? || f.RstStream?)
    ensures Survives(f)
  {
    match f
    case Data(id, endStream, pad, data) => DataRoundTrip(id, endStream, pad, data);
    case Block(_, _, _, _) =>
    case Priority(id, dep, exclusive, weight) => PriorityRoundTrip(id, dep, exclusive, weight);
    case RstStream(id, code) => Uint32(code);
  }

  lemma {:induction false} PingSurvives(f: Frame)
    requires Typed(f) && f.Ping?
    ensures Survives(f)
  {
    FlagsRead(f.ack, false, false, false);
  }

  lemma {:induction false} WindowUpdateSurvives(f: Frame)
    requires Typed(f) && Write(f).Some? && f.WindowUpdate?
    ensures Survives(f) <==> f.id < TWO31
  {
    Uint32(f.increment);
  }

  lemma {:induction false} PriorityRoundTrip(id: nat, dep: nat, exclusive: bool, weight: Byte)
    requires ValidStreamId(id) && ValidStreamId(dep)
    ensures Parse(Raw(PRIORITY, 0, id, PriorityPayload(dep, exclusive, weight))) == Ok(Priority(id, dep, exclusive, weight))
  {
    var x := if exclusive then dep + TWO31 else dep;
    assert PriorityPayload(dep, exclusive, weight)[..4] == BigEndian(x, 4);
    Uint32(x);
    assert x % TWO31 == dep;
  }

  lemma {:induction false} DataRoundTrip(id: nat, endStream: bool, pad: nat, data: seq<Byte>)
    requires ValidStreamId(id) && pad < 256
    ensures ParseData(Raw(DATA, Flags(endStream, false, pad > 0, false), id, DataPayload(data, pad))) ==
            Ok(Data(id, endStream, pad, data))
  {
    FlagsRead(endStream, false, pad > 0, false);
    var s := DataPayload(data, pad);
    assert pad > 0 ==> s[0] == pad && s[1..|s| - pad] == data;
  }

  lemma {:induction false} ListRoundTrip(list: S.Settings)
    requires forall x :: x in list ==> x.id < TWO16 && x.value < TWO32
    ensures ReadSettings([], SettingBytes(list)) == List(list) <==> S.Distinct(list) && S.ValidValues(list)
  {
    SettingsRead([], list);
    S.PutAllIff([], list);
    assert [] + list == list;
  }

  lemma {:induction false} SettingsRoundTrip(ack: bool, list: S.Settings)
    requires (forall x :: x in list ==> x.id < TWO16 && x.value < TWO32) && (ack ==> list == [])
    ensures ParseSettings(Raw(SETTINGS, Flags(ack, false, false, false), 0, SettingBytes(list))) == Ok(Settings(ack, list))
            <==> S.Distinct(list) && S.ValidValues(list)
  {
    FlagsRead(ack, false, false, false);
    if !ack {
      ListRoundTrip(list);
      assert |SettingBytes(list)| % 6 == 0;
    }
  }

  lemma {:induction false} GoAwayRoundTrip(last: nat, code: nat, debug: seq<Byte>)
    requires last < TWO32 && code < TWO32
    ensures Parse(Raw(GOAWAY, 0, 0, BigEndian(last % TWO31, 4) + BigEndian(code, 4) + debug)) == Ok(GoAway(last, code, debug))
            <==> last < TWO31
  {
    var s := BigEndian(last % TWO31, 4) + BigEndian(code, 4) + debug;
    assert s[..4] == BigEndian(last % TWO31, 4) && s[4..8] == BigEndian(code, 4) && s[8..] == debug;
    Uint32(last % TWO31);
    Uint32(code);
  }

  lemma {:induction false} UnknownRoundTrip(f: Frame)
    requires f.Unknown? && Typed(f)
    ensures Survives(f) <==> Representable(f)
  {
  }
}
