/** The frame reader: payloads of DATA and unknown frames are handed out lazily, and whatever the
    caller leaves of one is skipped before the next frame. */
module FrameReader {
  import opened Wrappers
  import opened Bits
  import opened Frames

  /** The bytes to come, of which the first n are unread payload and the next p its padding. */
  datatype Reader = Reader(input: seq<Byte>, n: nat, p: nat)

  /** What ReadFrame returns: lazily read frames only have the length of their content. */
  datatype Head =
    | Whole(f: Frame)
    | DataHead(id: nat, endStream: bool, pad: nat, len: nat)
    | UnknownHead(kind: Byte, flags: Byte, id: nat, len: nat)

  /** Stream errors leave the connection usable; the others end it. */
  datatype Outcome =
    | Got(h: Head, r: Reader)
    | Skipped(e: ReadError, r: Reader)
    | Aborted(e: ReadError)
    | Short

  function OpenData(h: Header, rest: seq<Byte>): (o: Outcome) {
    if h.id == 0 then Aborted(ConnError(Protocol))
    else if !HasPadded(h.flags) then Got(DataHead(h.id, HasFirst(h.flags), 0, h.len), Reader(rest, h.len, 0))
    else
      var pad := Padding(h.flags, rest);
      if pad >= h.len then Aborted(ConnError(Protocol))
      else
        var len := h.len - pad - 1;
        Got(DataHead(h.id, HasFirst(h.flags), pad, len), Reader(if rest == [] then [] else rest[1..], len, pad))
  }

  function Finish(p: Parsed, r: Reader): (o: Outcome) {
    match p
    case Ok(f) => Got(Whole(f), r)
    case Bad(ConnError(code)) => Aborted(ConnError(code))
    case Bad(StreamError(code, id)) => Skipped(StreamError(code, id), r)
  }

  function Body(h: Header, rest: seq<Byte>): (o: Outcome) {
    if h.kind == DATA then OpenData(h, rest)
    else if h.kind > 9 then Got(UnknownHead(h.kind, h.flags, h.id, h.len), Reader(rest, h.len, 0))
    else if |rest| < h.len then Short
    else Finish(Parse(Raw(h.kind, h.flags, h.id, rest[..h.len])), Reader(rest[h.len..], 0, 0))
  }

  function Open(input: seq<Byte>, max: nat): (o: Outcome) {
    if |input| < 9 then Short
    else
      var h := ParseHeader(input);
      if h.len > max then Aborted(ConnError(FrameSize)) else Body(h, input[9..])
  }

  /** ReadFrame, first closing the last payload. */
  function Next(r: Reader, max: nat): (o: Outcome) {
    if |r.input| < r.n + r.p then Short else Open(r.input[r.n + r.p..], max)
  }

  // ----- The reader object

  class FrameReaderObject {
    var input: seq<Byte>
    var n: nat
    var p: nat

    ghost function Value(): (r: Reader)
      reads this
    {
      Reader(input, n, p)
    }

    constructor (input: seq<Byte>)
      ensures Value() == Reader(input, 0, 0)
    {
      this.input, n, p := input, 0, 0;
    }

    /** Skips what is left of the payload, padding included. */
    method Close() returns (ok: bool)
      modifies this
      ensures ok == (old(|input| >= n + p))
      ensures Value() == if ok then Reader(old(input)[old(n + p)..], 0, 0) else old(Value())
    {
      if |input| < n + p { return false; }
      input := input[n + p..];
      n, p := 0, 0;
      ok := true;
    }

    /** At most k bytes of the payload; `got` is how many the connection delivers at once. */
    method Read(k: nat, got: nat) returns (bytes: seq<Byte>, eof: bool)
      requires 0 < got <= |input| || n == 0 || k == 0
      modifies this
      ensures eof == (k > 0 && old(n) == 0)
      ensures bytes + input == old(input) && |bytes| + n == old(n) && p == old(p)
      ensures |bytes| <= k && (k > 0 && !eof ==> |bytes| > 0)
    {
      if k == 0 { return [], false; }
      if n <= 0 { return [], true; }
      var m := if k > n then n else k;
      if got < m { m := got; }
      bytes, eof := input[..m], false;
      input, n := input[m..], n - m;
    }

    /** readFrom of DATA: the payload is left to the caller, the padding to Close. */
    method ReadData(h: Header) returns (o: Outcome)
      modifies this
      ensures o == OpenData(h, old(input))
      ensures o.Got? ==> Value() == o.r
    {
      if h.id == 0 { return Aborted(ConnError(Protocol)); }
      var len, pad := h.len, 0;
      if HasPadded(h.flags) {
        if input != [] {
          pad, input := input[0], input[1..];
        }
        if pad >= h.len { return Aborted(ConnError(Protocol)); }
        len := len - pad - 1;
      }
      n, p := len, pad;
      o := Got(DataHead(h.id, HasFirst(h.flags), pad, len), Reader(input, n, p));
    }

    method ReadBody(h: Header) returns (o: Outcome)
      requires n == 0 && p == 0
      modifies this
      ensures o == Body(h, old(input))
      ensures o.Got? || o.Skipped? ==> Value() == o.r
    {
      if h.kind == DATA {
        o := ReadData(h);
      } else if h.kind > 9 {
        n := h.len;
        o := Got(UnknownHead(h.kind, h.flags, h.id, h.len), Reader(input, n, 0));
      } else if |input| < h.len {
        o := Short;
      } else {
        var frame := Parse(Raw(h.kind, h.flags, h.id, input[..h.len]));
        input := input[h.len..];
        o := Finish(frame, Reader(input, 0, 0));
      }
    }

    method ReadOpen(max: nat) returns (o: Outcome)
      requires n == 0 && p == 0
      modifies this
      ensures o == Open(old(input), max)
      ensures o.Got? || o.Skipped? ==> Value() == o.r
    {
      if |input| < 9 { return Short; }
      var h := ParseHeader(input);
      input := input[9..];
      if h.len > max { return Aborted(ConnError(FrameSize)); }
      o := ReadBody(h);
    }

    method ReadFrame(max: nat) returns (o: Outcome)
      modifies this
      ensures o == Next(old(Value()), max)
      ensures o.Got? || o.Skipped? ==> Value() == o.r
    {
      var closed := Close();
      if !closed { return Short; }
      o := ReadOpen(max);
    }
  }

  // ----- Alignment

  /** Skipping what is left of the payload leads to these bytes, unless the connection ends. */
  predicate Aligned(o: Outcome, tail: seq<Byte>) {
    match o
    case Got(h, r) => |r.input| >= r.n + r.p && r.input[r.n + r.p..] == tail
    case Skipped(_, r) => r == Reader(tail, 0, 0)
    case Aborted(_) => true
    case Short => false
  }

  lemma {:induction false} DataAligned(h: Header, payload: seq<Byte>, tail: seq<Byte>)
    requires h.len == |payload|
    ensures Aligned(OpenData(h, payload + tail), tail)
  {
    var rest := payload + tail;
    assert rest[|payload|..] == tail;
    if HasPadded(h.flags) && payload != [] {
      assert rest[0] == payload[0];
      assert rest[1..][|payload| - 1..] == tail;
    }
  }

  lemma {:induction false} BodyAligned(h: Header, payload: seq<Byte>, tail: seq<Byte>)
    requires h.len == |payload|
    ensures Aligned(Body(h, payload + tail), tail)
  {
    var rest := payload + tail;
    assert rest[|payload|..] == tail;
    if h.kind == DATA {
      DataAligned(h, payload, tail);
    } else if h.kind <= 9 {
      FinishAligned(Parse(Raw(h.kind, h.flags, h.id, rest[..h.len])), tail);
    }
  }

  lemma {:induction false} FinishAligned(p: Parsed, tail: seq<Byte>)
    ensures Aligned(Finish(p, Reader(tail, 0, 0)), tail)
  {
  }

  /** After any frame that does not end the connection, skipping its payload leads to the next one. */
  lemma {:induction false} StaysAligned(r: Raw, tail: seq<Byte>, max: nat)
    requires |r.payload| < TWO24 && r.id < TWO32
    ensures Aligned(Open(Wire(r) + tail, max), tail)
  {
    OpenWire(r, tail, max);
    BodyAligned(Header(|r.payload|, r.kind, r.flags, r.id % TWO31), r.payload, tail);
  }

  lemma {:induction false} OpenWire(r: Raw, tail: seq<Byte>, max: nat)
    requires |r.payload| < TWO24 && r.id < TWO32
    ensures Open(Wire(r) + tail, max) ==
            if |r.payload| > max then Aborted(ConnError(FrameSize))
            else Body(Header(|r.payload|, r.kind, r.flags, r.id % TWO31), r.payload + tail)
  {
    var hb := HeaderBytes(|r.payload|, r.kind, r.flags, r.id);
    HeaderRoundTrip(|r.payload|, r.kind, r.flags, r.id, r.payload + tail);
    Assoc(hb, r.payload, tail);
    assert (hb + (r.payload + tail))[9..] == r.payload + tail;
  }

  // ----- Sessions

  function HeadOf(f: Frame): (h: Head) {
    match f
    case Data(id, endStream, pad, data) => DataHead(id, endStream, pad, |data|)
    case Unknown(kind, flags, id, payload) => UnknownHead(kind, flags, id, |payload|)
    case _ => Whole(AsRead(f))
  }

  /** The lazily read part of a frame. */
  function Content(f: Frame): (s: seq<Byte>) {
    match f
    case Data(_, _, _, data) => data
    case Unknown(_, _, _, payload) => payload
    case _ => []
  }

  function PadOf(f: Frame): (n: nat) {
    if f.Data? then f.pad else 0
  }

  /** The writer accepts the frame, the wire can carry it and the reader's limit admits it. */
  ghost predicate Sendable(f: Frame, max: nat) {
    Typed(f) && Write(f).Some? && Carried(f) && |Write(f).value.payload| <= max < TWO24
  }

  function Unread(f: Frame, tail: seq<Byte>): (r: Reader) {
    Reader(Content(f) + Zeros(PadOf(f)) + tail, |Content(f)|, PadOf(f))
  }

  lemma {:induction false} DataOpens(f: Frame, tail: seq<Byte>)
    requires f.Data? && Typed(f) && Write(f).Some?
    ensures var r := Write(f).value;
      Body(Header(|r.payload|, r.kind, r.flags, r.id), r.payload + tail) == Got(HeadOf(f), Unread(f, tail))
  {
    FlagsRead(f.endStream, false, f.pad > 0, false);
    var s := DataPayload(f.data, f.pad);
    if f.pad > 0 {
      assert (s + tail)[0] == f.pad;
      assert (s + tail)[1..] == f.data + Zeros(f.pad) + tail;
    } else {
      assert s + tail == f.data + Zeros(0) + tail;
    }
  }

  lemma {:induction false} WrittenHeader(f: Frame)
    requires Typed(f) && Write(f).Some? && Carried(f)
    ensures var r := Write(f).value; r.id < TWO31 && (!f.Data? && !f.Unknown? ==> 0 < r.kind <= 9)
  {
  }

  lemma {:induction false} FrameOpens(f: Frame, tail: seq<Byte>, max: nat)
    requires Sendable(f, max)
    ensures Open(WireOf(f) + tail, max) == Got(HeadOf(f), Unread(f, tail))
  {
    var r := Write(f).value;
    WrittenHeader(f);
    OpenWire(r, tail, max);
    assert r.id % TWO31 == r.id;
    WrittenOpens(f, r, tail);
  }

  lemma {:induction false} WrittenOpens(f: Frame, r: Raw, tail: seq<Byte>)
    requires Typed(f) && Write(f) == Some(r) && Carried(f)
    ensures Body(Header(|r.payload|, r.kind, r.flags, r.id), r.payload + tail) == Got(HeadOf(f), Unread(f, tail))
  {
    if f.Data? {
      DataOpens(f, tail);
    } else if f.Unknown? {
      UnknownOpens(f, tail);
    } else {
      WrittenWholeOpens(f, tail);
    }
  }

  lemma {:induction false} WrittenWholeOpens(f: Frame, tail: seq<Byte>)
    requires Typed(f) && Write(f).Some? && Carried(f) && !f.Data? && !f.Unknown?
    ensures var r := Write(f).value;
      Body(Header(|r.payload|, r.kind, r.flags, r.id), r.payload + tail) == Got(HeadOf(f), Unread(f, tail))
  {
    var r := Write(f).value;
    WrittenHeader(f);
    FrameReadAs(f);
    assert Received(r) == r;
    WholeOpens(f, r, tail);
  }

  lemma {:induction false} UnknownOpens(f: Frame, tail: seq<Byte>)
    requires f.Unknown? && f.kind > 9
    ensures Body(Header(|f.payload|, f.kind, f.flags, f.id), f.payload + tail) == Got(HeadOf(f), Unread(f, tail))
  {
    assert f.payload + Zeros(0) + tail == f.payload + tail;
  }

  lemma {:induction false} WholeOpens(f: Frame, r: Raw, tail: seq<Byte>)
    requires 0 < r.kind <= 9 && Parse(r) == Ok(AsRead(f)) && !f.Data? && !f.Unknown?
    ensures Body(Header(|r.payload|, r.kind, r.flags, r.id), r.payload + tail) == Got(HeadOf(f), Unread(f, tail))
  {
    var rest := r.payload + tail;
    assert rest[..|r.payload|] == r.payload && rest[|r.payload|..] == tail;
    assert [] + Zeros(0) + tail == tail;
  }

  /** A frame, and what the caller read of its content. */
  datatype Delivery = Delivery(h: Head, bytes: seq<Byte>)

  /** ReadFrame as a value. */
  type Reading = (Reader, nat) -> Outcome

  ghost predicate IsNext(next: Reading) {
    forall r, max {:trigger Next(r, max)} :: next(r, max) == Next(r, max)
  }

  /** Reading one frame per entry of the script, and as many bytes of its content as the entry says. */
  ghost function Session(next: Reading, r: Reader, max: nat, script: seq<nat>): (d: seq<Delivery>)
    decreases |script|
  {
    if script == [] then []
    else
      match next(r, max)
      case Got(h, r1) =>
        var m := Min(Min(script[0], r1.n), |r1.input|);
        [Delivery(h, r1.input[..m])] + Session(next, Reader(r1.input[m..], r1.n - m, r1.p), max, script[1..])
      case Skipped(_, r1) => Session(next, r1, max, script[1..])
      case Aborted(_) => []
      case Short => []
  }

  /** A frame the writer refuses leaves no bytes. */
  ghost function WireOf(f: Frame): (s: seq<Byte>) {
    if Typed(f) && Write(f).Some? then Wire(Write(f).value) else []
  }

  ghost function WireAll(fs: seq<Frame>): (s: seq<Byte>) {
    if fs == [] then [] else WireOf(fs[0]) + WireAll(fs[1..])
  }

  function Expected(fs: seq<Frame>, script: seq<nat>): (d: seq<Delivery>)
    requires |fs| == |script|
  {
    if fs == [] then []
    else
      [Delivery(HeadOf(fs[0]), Content(fs[0])[..Min(script[0], |Content(fs[0])|)])] + Expected(fs[1..], script[1..])
  }

  lemma {:induction false} NextAfter(next: Reading, f: Frame, left: seq<Byte>, n: nat, p: nat, rest: seq<Byte>, max: nat)
    requires IsNext(next) && Sendable(f, max) && |left| == n + p
    ensures next(Reader(left + (WireOf(f) + rest), n, p), max) == Got(HeadOf(f), Unread(f, rest))
  {
    var r := Reader(left + (WireOf(f) + rest), n, p);
    assert r.input[n + p..] == WireOf(f) + rest;
    FrameOpens(f, rest, max);
    assert Next(r, max) == Got(HeadOf(f), Unread(f, rest));
  }

  lemma {:induction false} SessionGot(next: Reading, r: Reader, max: nat, script: seq<nat>, h: Head, r1: Reader)
    requires script != [] && next(r, max) == Got(h, r1)
    ensures var m := Min(Min(script[0], r1.n), |r1.input|);
      Session(next, r, max, script) ==
      [Delivery(h, r1.input[..m])] + Session(next, Reader(r1.input[m..], r1.n - m, r1.p), max, script[1..])
  {
  }

  lemma {:induction false} SessionFirst(next: Reading, f: Frame, left: seq<Byte>, n: nat, p: nat, rest: seq<Byte>, max: nat, script: seq<nat>)
    requires IsNext(next) && Sendable(f, max) && |left| == n + p && script != []
    ensures var c, z := Content(f), Zeros(PadOf(f));
      var m := Min(script[0], |c|);
      Session(next, Reader(left + (WireOf(f) + rest), n, p), max, script) ==
      [Delivery(HeadOf(f), c[..m])] + Session(next, Reader(c[m..] + z + rest, |c| - m, |z|), max, script[1..])
  {
    NextAfter(next, f, left, n, p, rest, max);
    SessionGot(next, Reader(left + (WireOf(f) + rest), n, p), max, script, HeadOf(f), Unread(f, rest));
    TakeSome(Content(f), Zeros(PadOf(f)), rest, Min(script[0], |Content(f)|));
  }

  /** Any sequence of frames is read back in order, each with the requested part of its content,
      however much of the earlier contents was left unread. */
  lemma {:induction false} SessionReads(next: Reading, fs: seq<Frame>, left: seq<Byte>, n: nat, p: nat, tail: seq<Byte>,
                                        max: nat, script: seq<nat>)
    requires IsNext(next) && (forall i :: 0 <= i < |fs| ==> Sendable(fs[i], max)) && |fs| == |script| && |left| == n + p
    ensures Session(next, Reader(left + (WireAll(fs) + tail), n, p), max, script) == Expected(fs, script)
    decreases |fs|
  {
    if fs != [] {
      var f, rest := fs[0], WireAll(fs[1..]) + tail;
      Assoc(WireOf(f), WireAll(fs[1..]), tail);
      SessionFirst(next, f, left, n, p, rest, max, script);
      var c, z := Content(f), Zeros(PadOf(f));
      var m := Min(script[0], |c|);
      SessionReads(next, fs[1..], c[m..] + z, |c| - m, |z|, tail, max, script[1..]);
    }
  }

  lemma {:induction false} TakeSome(c: seq<Byte>, z: seq<Byte>, rest: seq<Byte>, m: nat)
    requires m <= |c|
    ensures (c + z + rest)[..m] == c[..m] && (c + z + rest)[m..] == c[m..] + z + rest
  {
  }
}
