/** HEADERS and PUSH_PROMISE with their CONTINUATION frames, as written and as put together again by
    the frame reader, which feeds the fragments to the HPACK decoder in read-buffer sized chunks. */
module HeaderMessages {
  import opened Wrappers
  import opened Bits
  import opened HeaderTable
  import opened Hpack
  import opened HpackChunks
  import opened HpackLockstep
  import opened HF = HeaderFrames
  import opened HB = HeaderBlocks
  import F = Frames

  datatype Weighting = Weighting(dep: nat, exclusive: bool, weight: Byte)

  const NO_PRIORITY := Weighting(0, false, 0)

  /** Everything about a header frame but its header. */
  datatype Msg =
    | HeadersMsg(id: nat, endStream: bool, pad: nat, priority: Weighting)
    | PushMsg(id: nat, promised: nat, pad: nat)

  /** What writeTo checks, and the types of the fields. */
  predicate ValidMsg(m: Msg) {
    && F.ValidStreamId(m.id) && m.pad < 256
    && match m
       case HeadersMsg(_, _, _, p) => p != NO_PRIORITY ==> F.ValidStreamId(p.dep)
       case PushMsg(_, promised, _) => F.ValidStreamId(promised)
  }

  function PadByte(pad: nat): (s: seq<Byte>)
    requires pad < 256
  {
    if pad > 0 then
      var b: Byte := pad;
      [b]
    else []
  }

  /** The bytes between the Pad Length octet and the fragment. */
  function Preamble(m: Msg): (s: seq<Byte>) {
    match m
    case HeadersMsg(_, _, _, p) => if p == NO_PRIORITY then [] else F.PriorityPayload(p.dep, p.exclusive, p.weight)
    case PushMsg(_, promised, _) => F.BigEndian(promised, 4)
  }

  /** nonFragmentLen */
  function Other(m: Msg): (n: nat)
    requires m.pad < 256
    ensures n <= 261
  {
    |PadByte(m.pad)| + |Preamble(m)| + m.pad
  }

  function FirstFrame(m: Msg, f: Frag): (r: F.Frame)
    requires m.pad < 256
  {
    var kind: Byte := if m.HeadersMsg? then F.HEADERS else F.PUSH_PROMISE;
    var flags := F.Flags(m.HeadersMsg? && m.endStream, f.endHeaders, m.pad > 0, m.HeadersMsg? && m.priority != NO_PRIORITY);
    F.Block(kind, flags, m.id, PadByte(m.pad) + Preamble(m) + f.bytes + F.Zeros(m.pad))
  }

  function NextFrame(m: Msg, f: Frag): (r: F.Frame) {
    F.Block(F.CONTINUATION, F.Flags(false, f.endHeaders, false, false), m.id, f.bytes)
  }

  function NextFrames(m: Msg, frags: seq<Frag>): (fs: seq<F.Frame>) {
    if frags == [] then [] else [NextFrame(m, frags[0])] + NextFrames(m, frags[1..])
  }

  /** One HEADERS or PUSH_PROMISE frame, then CONTINUATION frames of the same stream. */
  function FramesOf(m: Msg, frags: seq<Frag>): (fs: seq<F.Frame>)
    requires m.pad < 256
  {
    if frags == [] then [] else [FirstFrame(m, frags[0])] + NextFrames(m, frags[1..])
  }

  // ----- Reading

  datatype BlockError =
    | Interrupted
    | NoBlock
    | WrongStream
    | TooSmall
    | Decoding(e: DecodeError)
    | CutShort

  /** A HEADERS or PUSH_PROMISE frame taken apart. PUSH_PROMISE frames too small for their fields are
      not modelled beyond their being so. */
  datatype Start = Start(m: Msg, fragment: seq<Byte>) | Small

  function Skip(s: seq<Byte>, n: nat): (r: seq<Byte>) {
    if n <= |s| then s[n..] else []
  }

  function OpenHeaders(flags: Byte, id: nat, s: seq<Byte>): (r: Start) {
    var pad := F.Padding(flags, s);
    var s1 := if F.HasPadded(flags) then Skip(s, 1) else s;
    var other := (if F.HasPadded(flags) then pad + 1 else 0) + (if F.HasPriority(flags) then 5 else 0);
    if |s| < other then Small
    else if F.HasPriority(flags) then
      var x := F.FromBigEndian(s1[..4]);
      var p := Weighting(x % TWO31, x % TWO31 != x, s1[4]);
      Start(HeadersMsg(id, F.HasFirst(flags), pad, p), s1[5..][..|s| - other])
    else Start(HeadersMsg(id, F.HasFirst(flags), pad, NO_PRIORITY), s1[..|s| - other])
  }

  function OpenPush(flags: Byte, id: nat, s: seq<Byte>): (r: Start) {
    var pad := F.Padding(flags, s);
    var s1 := if F.HasPadded(flags) then Skip(s, 1) else s;
    var other := (if F.HasPadded(flags) then pad + 1 else 0) + 4;
    if |s| < other then Small
    else Start(PushMsg(id, F.FromBigEndian(s1[..4]) % TWO31, pad), s1[4..][..|s| - other])
  }

  function Open(f: F.Frame): (r: Start)
    requires f.Block?
  {
    if f.kind == F.HEADERS then OpenHeaders(f.flags, f.id, f.payload) else OpenPush(f.flags, f.id, f.payload)
  }

  lemma {:induction false} PayloadShape(pad: nat, pre: seq<Byte>, bytes: seq<Byte>)
    requires pad < 256
    ensures var s, s1 := PadByte(pad) + pre + bytes + F.Zeros(pad), pre + bytes + F.Zeros(pad);
      && |s| == |PadByte(pad)| + |pre| + |bytes| + pad
      && (pad > 0 ==> s[0] == pad && s[1..] == s1) && (pad == 0 ==> s == s1)
      && s1[..|pre|] == pre && s1[|pre|..][..|bytes|] == bytes
  {
  }

  /** Taking a first frame apart gives back what it was made from. */
  lemma {:induction false} OpenHeadersInverts(m: Msg, f: Frag)
    requires ValidMsg(m) && m.HeadersMsg?
    ensures Open(FirstFrame(m, f)) == Start(m, f.bytes)
  {
    F.FlagsRead(m.endStream, f.endHeaders, m.pad > 0, m.priority != NO_PRIORITY);
    PayloadShape(m.pad, Preamble(m), f.bytes);
    if m.priority != NO_PRIORITY { PriorityInverts(m, f); }
  }

  lemma {:induction false} PriorityInverts(m: Msg, f: Frag)
    requires ValidMsg(m) && m.HeadersMsg? && m.priority != NO_PRIORITY
    ensures Open(FirstFrame(m, f)) == Start(m, f.bytes)
  {
    F.FlagsRead(m.endStream, f.endHeaders, m.pad > 0, true);
    var p := m.priority;
    var pre := F.PriorityPayload(p.dep, p.exclusive, p.weight);
    PayloadShape(m.pad, pre, f.bytes);
    var s1 := pre + f.bytes + F.Zeros(m.pad);
    F.PriorityRoundTrip(m.id, p.dep, p.exclusive, p.weight);
    assert s1[..4] == pre[..4] && s1[4] == pre[4];
  }

  lemma {:induction false} OpenPushInverts(m: Msg, f: Frag)
    requires ValidMsg(m) && m.PushMsg?
    ensures Open(FirstFrame(m, f)) == Start(m, f.bytes)
  {
    F.FlagsRead(false, f.endHeaders, m.pad > 0, false);
    PayloadShape(m.pad, F.BigEndian(m.promised, 4), f.bytes);
    F.Uint32(m.promised);
  }

  /** The read buffer hands over at most k bytes at a time. */
  function Cut(s: seq<Byte>, k: nat): (chunks: seq<seq<Byte>>)
    requires k > 0
    decreases |s|
  {
    if |s| <= k then (if s == [] then [] else [s]) else [s[..k]] + Cut(s[k..], k)
  }

  lemma {:induction false} CutConcat(s: seq<Byte>, k: nat)
    requires k > 0
    ensures Concat(Cut(s, k)) == s
    decreases |s|
  {
    if |s| > k {
      CutConcat(s[k..], k);
      assert Cut(s, k)[1..] == Cut(s[k..], k);
    } else if s != [] {
      assert [s][1..] == [] && s + [] == s;
    }
  }

  /** The reader between frames: the decoder, and the header frame being continued. */
  datatype State = State(dec: Decoder, pending: Option<Msg>)

  ghost predicate Sound(st: State) {
    st.dec.table.size < TWO32 && st.dec.n < TWO32
  }

  datatype Read = Failed(e: BlockError) | Continue(st: State) | Complete(m: Msg, fields: seq<HeaderField>, st: State)

  /** The handler, the limit on the header list and the size of the read buffer. */
  datatype Config = Config(cb: Codebook, h: Handler, limit: nat, chunk: nat)

  ghost function Feed(c: Config, d: Decoder, s: seq<Byte>): (d': Decoder)
    requires d.table.size < TWO32 && d.n < TWO32 && c.chunk > 0
    ensures d'.table.size < TWO32 && d'.n < TWO32
  {
    DecodeAll(c.cb, c.h, c.limit, d, Cut(s, c.chunk))
  }

  ghost function Decoded(c: Config, d: Decoder, m: Msg, s: seq<Byte>, endHeaders: bool): (r: Read)
    requires d.table.size < TWO32 && d.n < TWO32 && c.chunk > 0
    ensures r.Failed? || Sound(r.st)
  {
    var d1 := Feed(c, d, s);
    if d1.err.Some? then Failed(Decoding(d1.err.value))
    else if !endHeaders then Continue(State(d1, Some(m)))
    else if Reset(d1).1 then Failed(CutShort)
    else Complete(m, d1.calls, State(Reset(d1).0, None))
  }

  /** readFrom of a frame with a header block fragment. */
  ghost function ReadBlock(c: Config, st: State, f: F.Frame): (r: Read)
    requires Sound(st) && f.Block? && c.chunk > 0
    ensures r.Failed? || Sound(r.st)
  {
    if st.pending.Some? && f.kind != F.CONTINUATION then Failed(Interrupted)
    else if f.kind == F.CONTINUATION then
      if st.pending == None then Failed(NoBlock)
      else if st.pending.value.id != f.id then Failed(WrongStream)
      else Decoded(c, st.dec, st.pending.value, f.payload, F.HasEndHeaders(f.flags))
    else
      match Open(f)
      case Small => Failed(TooSmall)
      case Start(m, s) => Decoded(c, st.dec.(calls := []), m, s, F.HasEndHeaders(f.flags))
  }

  lemma {:induction false} FeedIsDecode(c: Config, d: Decoder, s: seq<Byte>)
    requires d.table.size < TWO32 && d.n < TWO32 && c.chunk > 0
    ensures Feed(c, d, s) == Decode(c.cb, c.h, c.limit, d, s)
  {
    CutConcat(s, c.chunk);
    ChunkIndependence(c.cb, c.h, c.limit, d, Cut(s, c.chunk));
  }

  lemma {:induction false} FirstReads(c: Config, st: State, m: Msg, f: Frag)
    requires Sound(st) && st.pending == None && c.chunk > 0 && ValidMsg(m)
    ensures ReadBlock(c, st, FirstFrame(m, f)) == Decoded(c, st.dec.(calls := []), m, f.bytes, f.endHeaders)
  {
    if m.HeadersMsg? {
      OpenHeadersInverts(m, f);
      F.FlagsRead(m.endStream, f.endHeaders, m.pad > 0, m.priority != NO_PRIORITY);
    } else {
      OpenPushInverts(m, f);
      F.FlagsRead(false, f.endHeaders, m.pad > 0, false);
    }
  }

  lemma {:induction false} NextReads(c: Config, st: State, m: Msg, f: Frag)
    requires Sound(st) && st.pending == Some(m) && c.chunk > 0
    ensures ReadBlock(c, st, NextFrame(m, f)) == Decoded(c, st.dec, m, f.bytes, f.endHeaders)
  {
    F.FlagsRead(false, f.endHeaders, false, false);
  }

  // ----- Sequences of frames

  datatype Event = Plain(f: F.Frame) | Message(m: Msg, fields: seq<HeaderField>)

  datatype Assembled = Assembled(events: seq<Event>, st: State, err: Option<BlockError>)

  function Prefixed(ev: Event, a: Assembled): (r: Assembled) {
    a.(events := [ev] + a.events)
  }

  /** What ReadFrame returns over a sequence of frames, one call after the other. */
  ghost function Assemble(c: Config, st: State, fs: seq<F.Frame>): (a: Assembled)
    requires Sound(st) && c.chunk > 0
    decreases |fs|
  {
    if fs == [] then Assembled([], st, None)
    else if fs[0].Block? then Resumed(c, st, ReadBlock(c, st, fs[0]), fs)
    else if st.pending.Some? then Assembled([], st, Some(Interrupted))
    else Prefixed(Plain(fs[0]), Assemble(c, st, fs[1..]))
  }

  ghost function Resumed(c: Config, st: State, r: Read, fs: seq<F.Frame>): (a: Assembled)
    requires Sound(st) && c.chunk > 0 && fs != [] && (r.Failed? || Sound(r.st))
    decreases |fs|, 0
  {
    match r
    case Failed(e) => Assembled([], st, Some(e))
    case Continue(st1) => Assemble(c, st1, fs[1..])
    case Complete(m, fields, st1) => Prefixed(Message(m, fields), Assemble(c, st1, fs[1..]))
  }

  /** What the rest of the frames gives after a complete message. */
  ghost function Then(c: Config, m: Msg, d: Decoder, more: seq<F.Frame>): (a: Assembled)
    requires d.table.size < TWO32 && c.chunk > 0
  {
    Prefixed(Message(m, d.calls), Assemble(c, State(Reset(d).0, None), more))
  }

  ghost predicate Whole(d: Decoder) {
    d.err == None && d.leftover == [] && d.table.size < TWO32
  }

  /** A decoder that fails early fails in the end. */
  lemma {:induction false} EarlyError(c: Config, d: Decoder, a: seq<Byte>, b: seq<Byte>)
    requires d.table.size < TWO32 && d.n < TWO32 && Whole(Decode(c.cb, c.h, c.limit, d, a + b))
    ensures var d1 := Decode(c.cb, c.h, c.limit, d, a);
      && d1.table.size < TWO32 && d1.n < TWO32 && d1.err == None
      && Decode(c.cb, c.h, c.limit, d1, b) == Decode(c.cb, c.h, c.limit, d, a + b)
  {
    DecodeSplit(c.cb, c.h, c.limit, d, a, b);
  }

  lemma {:induction false} EndsTail(frags: seq<Frag>)
    requires |frags| > 1 && Ends(frags, true)
    ensures !frags[0].endHeaders && Ends(frags[1..], true)
  {
  }

  /** The frame that is read here and those that follow it. */
  lemma {:induction false} AssembleOne(c: Config, st: State, f: F.Frame, more: seq<F.Frame>)
    requires Sound(st) && c.chunk > 0 && f.Block?
    ensures Assemble(c, st, [f] + more) ==
      match ReadBlock(c, st, f)
      case Failed(e) => Assembled([], st, Some(e))
      case Continue(st1) => Assemble(c, st1, more)
      case Complete(m, fields, st1) => Prefixed(Message(m, fields), Assemble(c, st1, more))
  {
    assert ([f] + more)[1..] == more;
  }

  lemma {:induction false} ContinuationsArrive(c: Config, d: Decoder, m: Msg, frags: seq<Frag>, more: seq<F.Frame>)
    requires d.table.size < TWO32 && d.n < TWO32 && c.chunk > 0 && frags != [] && Ends(frags, true)
    requires Whole(Decode(c.cb, c.h, c.limit, d, HF.Block(frags)))
    ensures Assemble(c, State(d, Some(m)), NextFrames(m, frags) + more) ==
            Then(c, m, Decode(c.cb, c.h, c.limit, d, HF.Block(frags)), more)
    decreases |frags|
  {
    var f, tail := frags[0], frags[1..];
    EarlyError(c, d, f.bytes, HF.Block(tail));
    FeedIsDecode(c, d, f.bytes);
    NextReads(c, State(d, Some(m)), m, f);
    Assoc([NextFrame(m, f)], NextFrames(m, tail), more);
    AssembleOne(c, State(d, Some(m)), NextFrame(m, f), NextFrames(m, tail) + more);
    if tail == [] {
      LastFrag(f, more, m);
    } else {
      EndsTail(frags);
      ContinuationsArrive(c, Decode(c.cb, c.h, c.limit, d, f.bytes), m, tail, more);
    }
  }

  lemma {:induction false} LastFrag(f: Frag, more: seq<F.Frame>, m: Msg)
    ensures HF.Block([f]) == f.bytes && NextFrames(m, []) + more == more
  {
    assert [f][1..] == [] && f.bytes + [] == f.bytes;
  }

  lemma {:induction false} BlockArrives(c: Config, d: Decoder, m: Msg, frags: seq<Frag>, more: seq<F.Frame>)
    requires d.table.size < TWO32 && d.n < TWO32 && c.chunk > 0 && frags != [] && Ends(frags, true) && ValidMsg(m)
    requires Whole(Decode(c.cb, c.h, c.limit, d.(calls := []), HF.Block(frags)))
    ensures Assemble(c, State(d, None), FramesOf(m, frags) + more) ==
            Then(c, m, Decode(c.cb, c.h, c.limit, d.(calls := []), HF.Block(frags)), more)
  {
    var f, tail, d0 := frags[0], frags[1..], d.(calls := []);
    EarlyError(c, d0, f.bytes, HF.Block(tail));
    FeedIsDecode(c, d0, f.bytes);
    FirstReads(c, State(d, None), m, f);
    Assoc([FirstFrame(m, f)], NextFrames(m, tail), more);
    AssembleOne(c, State(d, None), FirstFrame(m, f), NextFrames(m, tail) + more);
    if tail == [] {
      LastFrag(f, more, m);
    } else {
      EndsTail(frags);
      ContinuationsArrive(c, Decode(c.cb, c.h, c.limit, d0, f.bytes), m, tail, more);
    }
  }

  // ----- Messages

  /** A header to be sent: pseudo-header keys and regular keys in the order of the visit, and the
      frame size and header list limits in force. */
  datatype Outgoing = Outgoing(m: Msg, pseudo: seq<Group>, groups: seq<Group>, max: nat, limit: nat)

  function Fields(o: Outgoing): (fs: seq<HeaderField>) {
    AllFields(o.pseudo) + AllFields(o.groups)
  }

  ghost predicate ValidOutgoing(o: Outgoing) {
    ValidMsg(o.m) && o.max > 261 && HaveValues(o.pseudo)
  }

  datatype Written = Written(frags: seq<Frag>, enc: Encoder, err: Option<WriteError>)

  function LimitsOf(o: Outgoing): (l: Limits)
    requires o.m.pad < 256
  {
    Limits(o.max, Other(o.m))
  }

  function StartOf(e: Encoder, o: Outgoing): (w: Writer) {
    Writer(e, [], 0, |Fields(o)|, true, [])
  }

  /** writeTo: an empty header is one empty fragment, any other goes through the loops. */
  ghost function WriteMessage(cb: Codebook, e: Encoder, o: Outgoing): (r: Written)
    requires ValidOutgoing(o) && e.table.size < TWO32
  {
    if Fields(o) == [] then Written([Frag([], true)], e, None)
    else
      var (w, err) := WriteKeys(cb, LimitsOf(o), o.limit, StartOf(e, o), o.pseudo, o.groups);
      Written(w.frags, w.enc, err)
  }

  /** There is a regular key, and the last one visited has a value unless it is alone. */
  predicate EndsWell(groups: seq<Group>) {
    groups != [] && (|groups| == 1 || groups[|groups| - 1].values != [])
  }

  lemma {:induction false} PartCounts(cb: Codebook, e: Encoder, groups: seq<Group>)
    requires e.table.size < TWO32
    ensures Writable(PartsOf(cb, e, groups)) <==> EndsWell(groups)
    decreases |groups|
  {
    if groups != [] {
      var e1 := EncFields(cb, e, ValueFields(groups[0].key, groups[0].values)).0;
      PartCounts(cb, e1, groups[1..]);
      PartLast(cb, e, groups);
    }
  }

  lemma {:induction false} PartLast(cb: Codebook, e: Encoder, groups: seq<Group>)
    requires e.table.size < TWO32 && groups != []
    ensures PartsOf(cb, e, groups)[|groups| - 1].count == |groups[|groups| - 1].values|
    decreases |groups|
  {
    if |groups| > 1 {
      var e1 := EncFields(cb, e, ValueFields(groups[0].key, groups[0].values)).0;
      PartLast(cb, e1, groups[1..]);
      assert PartsOf(cb, e, groups)[1..] == PartsOf(cb, e1, groups[1..]);
      assert groups[1..][|groups| - 2] == groups[|groups| - 1];
    }
  }

  /** A non-empty header that meets no error is written as the fragments of its HPACK block, well
      formed exactly if the visit of its keys ends well. */
  lemma {:induction false} WriteMessageMeaning(cb: Codebook, e: Encoder, o: Outgoing)
    requires ValidOutgoing(o) && e.table.size < TWO32 && WriteMessage(cb, e, o).err == None
    ensures var r, (e', block, n) := WriteMessage(cb, e, o), EncFields(cb, e, Fields(o));
      && r.enc == e'
      && (Fields(o) != [] ==> (WellFormed(LimitsOf(o), r.frags, block) <==> EndsWell(o.groups)))
      && (Fields(o) == [] ==> WellFormed(LimitsOf(o), r.frags, block))
  {
    var l := LimitsOf(o);
    if Fields(o) == [] {
      assert [Frag([], true)][1..] == [];
    } else {
      var w0 := StartOf(e, o);
      WritePseudoMeaning(cb, w0, o.pseudo);
      var w1 := WritePseudo(cb, w0, o.pseudo).0;
      WriteGroupsMeaning(cb, l, o.limit, w1, o.groups);
      EncFieldsJoined(cb, e, AllFields(o.pseudo), AllFields(o.groups));
      PartsMeaning(cb, w1.enc, o.groups);
      PartCounts(cb, w1.enc, o.groups);
      var parts := PartsOf(cb, w1.enc, o.groups);
      var b := EncFields(cb, e, AllFields(o.pseudo)).1;
      assert [] + b == b;
      FragmentsWellFormedIff(l, b, parts);
      var frags := Fragments(l, b, parts, Count(parts), true);
      assert [] + frags == frags;
    }
  }

  // ----- Errors

  predicate NoBadKeys(groups: seq<Group>) {
    forall i :: 0 <= i < |groups| ==> !BadKey(groups[i].key)
  }

  /** A header is written without error if and only if it is empty, or its pseudo-header keys have one
      value each, its regular keys are well-formed, and the header list keeps to its limit, which
      is checked at the regular values. */
  lemma {:induction false} MessageErrorIff(cb: Codebook, e: Encoder, o: Outgoing)
    requires ValidOutgoing(o) && e.table.size < TWO32
    requires o.limit == 0 || EncFields(cb, e, Fields(o)).2 < TWO32
    ensures WriteMessage(cb, e, o).err == None <==>
      || Fields(o) == []
      || (&& SingleValues(o.pseudo) && NoBadKeys(o.groups)
          && (o.limit == 0 || AllFields(o.groups) == [] || EncFields(cb, e, Fields(o)).2 <= o.limit))
  {
    if Fields(o) != [] {
      var w0 := StartOf(e, o);
      WritePseudoMeaning(cb, w0, o.pseudo);
      EncFieldsJoined(cb, e, AllFields(o.pseudo), AllFields(o.groups));
      var (w1, ok) := WritePseudo(cb, w0, o.pseudo);
      if ok { GroupsErrorIff(cb, LimitsOf(o), o.limit, w1, o.groups); }
    }
  }

  /** A header without regular keys leaves no frame and no error, but its fields have gone through
      the encoder. */
  lemma {:induction false} PseudoOnlyLost(cb: Codebook, e: Encoder, o: Outgoing)
    requires ValidOutgoing(o) && e.table.size < TWO32 && o.groups == [] && o.pseudo != [] && SingleValues(o.pseudo)
    ensures var r := WriteMessage(cb, e, o);
      r.frags == [] && r.err == None && r.enc == EncFields(cb, e, Fields(o)).0 && Fields(o) != []
  {
    WritePseudoMeaning(cb, StartOf(e, o), o.pseudo);
    OneField(o.pseudo[0].key, o.pseudo[0].values, AllFields(o.pseudo[1..]));
    assert AllFields(o.pseudo) + [] == AllFields(o.pseudo);
  }

  lemma {:induction false} PseudoTookIn(cb: Codebook, w: Writer, pseudo: seq<Group>) returns (m: int)
    requires Sane(w) && HaveValues(pseudo)
    ensures TookIn(cb, w.enc, AllFields(pseudo), m, WritePseudo(cb, w, pseudo).0.enc)
    decreases |pseudo|
  {
    if pseudo == [] || |pseudo[0].values| > 1 {
      m := 0;
      TookInNothing(cb, w.enc, AllFields(pseudo));
    } else {
      var hf, tail := HeaderField(pseudo[0].key, pseudo[0].values[0], false), pseudo[1..];
      PutFieldSane(cb, w, hf);
      assert forall i :: 0 <= i < |tail| ==> tail[i] == pseudo[i + 1];
      var k := PseudoTookIn(cb, PutField(cb, w, hf), tail);
      OneField(pseudo[0].key, pseudo[0].values, AllFields(tail));
      assert AllFields(pseudo) == [hf] + AllFields(tail);
      FieldTookIn(cb, w.enc, hf, AllFields(tail), k, WritePseudo(cb, w, pseudo).0.enc);
      m := 1 + k;
    }
  }

  lemma {:induction false} FieldTookIn(cb: Codebook, e: Encoder, hf: HeaderField, rest: seq<HeaderField>, k: int, e': Encoder)
    requires e.table.size < TWO32 && EncField(cb, e, hf).0.table.size < TWO32
    requires TookIn(cb, EncField(cb, e, hf).0, rest, k, e')
    ensures TookIn(cb, e, [hf] + rest, 1 + k, e')
  {
    assert [hf][1..] == [];
    assert EncFields(cb, e, [hf]).0 == EncField(cb, e, hf).0;
    TookInMore(cb, e, [hf], rest, k, e');
  }

  lemma {:induction false} GroupsPartTookIn(cb: Codebook, l: Limits, limit: nat, e: Encoder, before: seq<HeaderField>,
                                            w: Writer, groups: seq<Group>) returns (m: int)
    requires e.table.size < TWO32 && Sane(w) && ValidLimits(l) && w.enc == EncFields(cb, e, before).0
    ensures TookIn(cb, e, before + AllFields(groups), m, WriteGroups(cb, l, limit, w, groups).0.enc)
  {
    WriteGroupsEncoder(cb, l, limit, w, groups);
    var w' := WriteGroups(cb, l, limit, w, groups).0;
    m := |before| + (w.remaining - w'.remaining);
    TookInMore(cb, e, before, AllFields(groups), w.remaining - w'.remaining, w'.enc);
  }

  /** However the writing of a header ends, the encoder has taken in some of its fields, in order. */
  lemma {:induction false} MessageTookIn(cb: Codebook, e: Encoder, o: Outgoing) returns (m: int)
    requires ValidOutgoing(o) && e.table.size < TWO32
    ensures TookIn(cb, e, Fields(o), m, WriteMessage(cb, e, o).enc)
  {
    if Fields(o) == [] {
      m := 0;
      TookInNothing(cb, e, Fields(o));
    } else {
      var w0 := StartOf(e, o);
      m := PseudoTookIn(cb, w0, o.pseudo);
      WritePseudoMeaning(cb, w0, o.pseudo);
      var (w1, ok) := WritePseudo(cb, w0, o.pseudo);
      if ok {
        m := GroupsPartTookIn(cb, LimitsOf(o), o.limit, e, AllFields(o.pseudo), w1, o.groups);
      } else {
        TookInPart(cb, e, AllFields(o.pseudo), AllFields(o.groups), m, w1.enc);
      }
    }
  }

  /** A header given up before any fragment was written, for whatever reason: the encoder has taken in some
      of its fields, in order, and the peer has seen nothing of them. What it takes for them to stay
      in step is a condition on these fields and the encoder before. */
  lemma {:induction false} GivenUpIff(cb: Codebook, e: Encoder, d: Decoder, o: Outgoing) returns (m: int)
    requires ValidOutgoing(o) && Synced(e, d) && forall f :: f in Fields(o) ==> Encodable(f)
    requires WriteMessage(cb, e, o).frags == []
    ensures TookIn(cb, e, Fields(o), m, WriteMessage(cb, e, o).enc)
    ensures StepCondition(cb, e, d, Fields(o)[..m], WriteMessage(cb, e, o).enc)
  {
    m := MessageTookIn(cb, e, o);
    var fields := Fields(o)[..m];
    assert forall f :: f in fields ==> f in Fields(o);
    UnseenIff(cb, e, d, fields);
  }

  /** Without a pending size update, fields that are not added to the table leave the peer in step, and
      while nothing would be evicted no others do. With one, fields that are not added do so if and only if
      the peer is already where the update leads. */
  ghost predicate StepCondition(cb: Codebook, e: Encoder, d: Decoder, fields: seq<HeaderField>, e': Encoder) {
    && (!e.sizeChanged && AllKept(cb, e, fields) ==> Synced(e', d))
    && (!e.sizeChanged && e.table.size + SumSizes(fields) <= e.table.maxSize ==> (Synced(e', d) <==> AllKept(cb, e, fields)))
    && (e.sizeChanged && fields != [] && AllKept(cb, e, fields) ==> (Synced(e', d) <==> e.table == d.table && Settled(d)))
  }

  /** The position of the first pseudo-header key with several values. */
  function FirstMulti(pseudo: seq<Group>): (k: nat)
    ensures k <= |pseudo|
    ensures forall i :: 0 <= i < k ==> |pseudo[i].values| <= 1
    ensures k < |pseudo| ==> |pseudo[k].values| > 1
  {
    if pseudo == [] || |pseudo[0].values| > 1 then 0 else 1 + FirstMulti(pseudo[1..])
  }

  /** The fields in front of the first malformed key. */
  function Reached(o: Outgoing): (fs: seq<HeaderField>) {
    if FirstMulti(o.pseudo) < |o.pseudo| then AllFields(o.pseudo[..FirstMulti(o.pseudo)])
    else AllFields(o.pseudo) + AllFields(o.groups[..FirstBad(o.groups)])
  }

  lemma {:induction false} PseudoReaches(cb: Codebook, w: Writer, pseudo: seq<Group>)
    requires Sane(w) && HaveValues(pseudo)
    ensures HaveValues(pseudo[..FirstMulti(pseudo)])
    ensures WritePseudo(cb, w, pseudo).0 == WritePseudo(cb, w, pseudo[..FirstMulti(pseudo)]).0
    ensures WritePseudo(cb, w, pseudo[..FirstMulti(pseudo)]).1
    decreases |pseudo|
  {
    var k := FirstMulti(pseudo);
    if k > 0 {
      var hf, tail := HeaderField(pseudo[0].key, pseudo[0].values[0], false), pseudo[1..];
      PutFieldSane(cb, w, hf);
      assert forall i :: 0 <= i < |tail| ==> tail[i] == pseudo[i + 1];
      PseudoReaches(cb, PutField(cb, w, hf), tail);
      assert pseudo[..k][0] == pseudo[0] && pseudo[..k][1..] == tail[..k - 1];
    }
  }

  lemma {:induction false} GroupsReach(cb: Codebook, l: Limits, limit: nat, w: Writer, groups: seq<Group>)
    requires Sane(w) && ValidLimits(l) && Within(cb, limit, w, groups)
    ensures var r := WriteGroups(cb, l, limit, w, groups[..FirstBad(groups)]);
      r.1 == None && r.0 == WriteGroups(cb, l, limit, w, groups).0
    decreases |groups|
  {
    var k := FirstBad(groups);
    if k > 0 {
      WithinTail(cb, l, limit, w, groups);
      GroupsReach(cb, l, limit, Flush(l, PutValues(cb, limit, w, groups[0].key, groups[0].values).0), groups[1..]);
    }
  }

  /** Unless the header list exceeds its limit, the encoder takes in exactly the fields in front of the
      first malformed key, all of them if there is none. */
  lemma {:induction false} MessageReaches(cb: Codebook, e: Encoder, o: Outgoing)
    requires ValidOutgoing(o) && e.table.size < TWO32
    requires o.limit == 0 || EncFields(cb, e, Reached(o)).2 <= o.limit < TWO32
    ensures WriteMessage(cb, e, o).enc == EncFields(cb, e, Reached(o)).0
  {
    if Fields(o) == [] {
      NothingReached(o);
    } else {
      var w0, k := StartOf(e, o), FirstMulti(o.pseudo);
      PseudoReaches(cb, w0, o.pseudo);
      WritePseudoMeaning(cb, w0, o.pseudo);
      if k < |o.pseudo| {
        WritePseudoMeaning(cb, w0, o.pseudo[..k]);
      } else {
        assert o.pseudo[..k] == o.pseudo;
        GroupsPartReach(cb, e, o);
      }
    }
  }

  lemma {:induction false} GroupsPartReach(cb: Codebook, e: Encoder, o: Outgoing)
    requires ValidOutgoing(o) && e.table.size < TWO32 && Fields(o) != [] && SingleValues(o.pseudo)
    requires var fs := AllFields(o.pseudo) + AllFields(o.groups[..FirstBad(o.groups)]);
      o.limit == 0 || EncFields(cb, e, fs).2 <= o.limit < TWO32
    ensures WriteMessage(cb, e, o).enc == EncFields(cb, e, AllFields(o.pseudo) + AllFields(o.groups[..FirstBad(o.groups)])).0
  {
    var w0, good := StartOf(e, o), o.groups[..FirstBad(o.groups)];
    WritePseudoMeaning(cb, w0, o.pseudo);
    var w1 := WritePseudo(cb, w0, o.pseudo).0;
    EncFieldsJoined(cb, e, AllFields(o.pseudo), AllFields(good));
    GroupsReach(cb, LimitsOf(o), o.limit, w1, o.groups);
    WriteGroupsMeaning(cb, LimitsOf(o), o.limit, w1, good);
  }

  lemma {:induction false} NothingReached(o: Outgoing)
    requires HaveValues(o.pseudo) && Fields(o) == []
    ensures Reached(o) == []
  {
    assert AllFields(o.pseudo) == [] && AllFields(o.groups) == [];
    AllFieldsSplit(o.groups, FirstBad(o.groups));
  }

  /** A malformed header given up before any fragment was written: the condition on the fields in front of
      the malformed key. */
  lemma {:induction false} MalformedGivenUpIff(cb: Codebook, e: Encoder, d: Decoder, o: Outgoing)
    requires ValidOutgoing(o) && Synced(e, d) && forall f :: f in Reached(o) ==> Encodable(f)
    requires o.limit == 0 || EncFields(cb, e, Reached(o)).2 <= o.limit < TWO32
    requires WriteMessage(cb, e, o).frags == []
    ensures StepCondition(cb, e, d, Reached(o), WriteMessage(cb, e, o).enc)
  {
    MessageReaches(cb, e, o);
    UnseenIff(cb, e, d, Reached(o));
  }

  // ----- Arrival

  /** What makes a header arrive: no error in writing, a good end of the visit, fields of uint32
      size, and a reader with the writer's limit that accepts them. The writer checks the limit at
      each regular value, for sums below 2^32. */
  ghost predicate Arriving(c: Config, e: Encoder, o: Outgoing)
    requires ValidOutgoing(o) && e.table.size < TWO32
  {
    && WriteMessage(c.cb, e, o).err == None
    && (Fields(o) != [] ==> EndsWell(o.groups))
    && (forall f :: f in Fields(o) ==> Encodable(f))
    && Accepts(c.h, [], Fields(o))
    && c.chunk > 0 && c.limit == o.limit < TWO32
    && (o.limit == 0 || Fields(o) == [] || Checked(c.cb, e, o))
  }

  /** The header list size is below 2^32, and there is a regular value at which it is checked, or no
      need to. */
  ghost predicate Checked(cb: Codebook, e: Encoder, o: Outgoing)
    requires e.table.size < TWO32
  {
    EncFields(cb, e, Fields(o)).2 < TWO32 && (AllFields(o.groups) != [] || EncFields(cb, e, Fields(o)).2 <= o.limit)
  }

  /** A header that meets all other conditions arrives if and only if it keeps to the limit, if any. */
  lemma {:induction false} ArrivingIff(c: Config, e: Encoder, o: Outgoing)
    requires ValidOutgoing(o) && e.table.size < TWO32 && c.chunk > 0 && c.limit == o.limit < TWO32
    requires AllFields(o.groups) != [] && EndsWell(o.groups) && SingleValues(o.pseudo) && NoBadKeys(o.groups)
    requires (forall f :: f in Fields(o) ==> Encodable(f)) && Accepts(c.h, [], Fields(o))
    requires o.limit == 0 || EncFields(c.cb, e, Fields(o)).2 < TWO32
    ensures Arriving(c, e, o) <==> o.limit == 0 || EncFields(c.cb, e, Fields(o)).2 <= o.limit
  {
    MessageErrorIff(c.cb, e, o);
    assert Fields(o)[|AllFields(o.pseudo)|] == AllFields(o.groups)[0];
  }

  /** The writer's check is the reader's. */
  lemma {:induction false} WithinLimit(c: Config, e: Encoder, o: Outgoing)
    requires ValidOutgoing(o) && e.table.size < TWO32 && Arriving(c, e, o)
    ensures c.limit == 0 || EncFields(c.cb, e, Fields(o)).2 <= c.limit
  {
    if c.limit != 0 && Fields(o) != [] { MessageErrorIff(c.cb, e, o); }
  }

  /** The reader rebuilds the header from the frames, and the two tables stay in step. */
  lemma {:induction false} MessageArrives(c: Config, e: Encoder, d: Decoder, o: Outgoing, more: seq<F.Frame>)
    returns (d': Decoder)
    requires GoodBook(c.cb) && Synced(e, d) && ValidOutgoing(o) && Arriving(c, e, o)
    ensures d'.table.size < TWO32 && d'.n < TWO32
    ensures var r := WriteMessage(c.cb, e, o);
      && Assemble(c, State(d, None), FramesOf(o.m, r.frags) + more) ==
         Prefixed(Message(o.m, Fields(o)), Assemble(c, State(d', None), more))
      && Synced(r.enc, d')
  {
    var r, d0 := WriteMessage(c.cb, e, o), d.(calls := []);
    WriteMessageMeaning(c.cb, e, o);
    WithinLimit(c, e, o);
    assert Synced(e, d0);
    BlockRoundTrip(c.cb, c.h, c.limit, e, d0, Fields(o));
    var d1 := Decode(c.cb, c.h, c.limit, d0, HF.Block(r.frags));
    assert [] + Fields(o) == Fields(o);
    BlockArrives(c, d, o.m, r.frags, more);
    d' := Reset(d1).0;
  }
}
