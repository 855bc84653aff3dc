/** The order of frames that the reader accepts around a header block (section 6.10 of RFC 7540), for any
    sequence of frames, written by a conforming peer or not. */
module HeaderOrder {
  import opened Wrappers
  import opened Bits
  import opened Hpack
  import opened HpackChunks
  import opened HM = HeaderMessages
  import HF = HeaderFrames
  import HB = HeaderBlocks
  import F = Frames

  predicate IsContinuation(f: F.Frame, id: nat) {
    f.Block? && f.kind == 9 && f.id == id
  }

  predicate EndsHeaders(f: F.Frame) {
    f.Block? && f.flags / 4 % 2 == 1
  }

  /** CONTINUATION frames of one stream, of which exactly the last ends the block. */
  predicate Continued(fs: seq<F.Frame>, id: nat) {
    fs != [] && forall i :: 0 <= i < |fs| ==> IsContinuation(fs[i], id) && EndsHeaders(fs[i]) == (i == |fs| - 1)
  }

  /** A HEADERS or PUSH_PROMISE frame and the CONTINUATION frames of the same stream up to the end. */
  predicate OneBlock(fs: seq<F.Frame>, id: nat) {
    && fs != [] && fs[0].Block? && fs[0].kind != 9 && fs[0].id == id
    && (if EndsHeaders(fs[0]) then fs[1..] == [] else Continued(fs[1..], id))
  }

  /** The frames are, one after the other, those of the events: single frames and whole blocks. */
  ghost predicate InOrder(fs: seq<F.Frame>, events: seq<Event>)
    decreases |events|
  {
    if events == [] then fs == []
    else
      match events[0]
      case Plain(f) => fs != [] && fs[0] == f && !f.Block? && InOrder(fs[1..], events[1..])
      case Message(m, _) =>
        exists k :: 0 < k <= |fs| && OneBlock(fs[..k], m.id) && InOrder(fs[k..], events[1..])
  }

  /** The same after the first frame of a block. */
  ghost predicate InOrderAfter(fs: seq<F.Frame>, m: Msg, events: seq<Event>) {
    && events != [] && events[0].Message? && events[0].m == m
    && exists k :: 0 < k <= |fs| && Continued(fs[..k], m.id) && InOrder(fs[k..], events[1..])
  }

  /** The frame may come now. */
  predicate Follows(pending: Option<Msg>, f: F.Frame) {
    match pending
    case None => !(f.Block? && f.kind == 9)
    case Some(m) => IsContinuation(f, m.id)
  }

  predicate OrderError(e: BlockError) {
    e == Interrupted || e == NoBlock || e == WrongStream
  }

  /** A frame is refused for its place if and only if it stands between the frames of a block, or continues no
      block or one of another stream. */
  lemma {:induction false} RefusedIff(c: Config, st: State, f: F.Frame)
    requires Sound(st) && c.chunk > 0
    ensures var a := Assemble(c, st, [f]);
      (a.err.Some? && OrderError(a.err.value)) <==> !Follows(st.pending, f)
  {
    assert [f][1..] == [];
    if f.Block? { AssembleOne(c, st, f, []); assert [f] + [] == [f]; }
  }

  lemma {:induction false} ReadBlockOrder(c: Config, st: State, f: F.Frame)
    requires Sound(st) && c.chunk > 0 && f.Block?
    ensures var r := ReadBlock(c, st, f);
      && (!r.Failed? ==> Follows(st.pending, f))
      && (r.Continue? ==> !EndsHeaders(f) && r.st.pending.Some? && r.st.pending.value.id == f.id
                          && (st.pending.Some? ==> r.st.pending == st.pending))
      && (r.Complete? ==> EndsHeaders(f) && r.st.pending == None && r.m.id == f.id && (st.pending.Some? ==> Some(r.m) == st.pending))
  {
  }

  ghost predicate Ordered(pending: Option<Msg>, fs: seq<F.Frame>, events: seq<Event>) {
    match pending
    case None => InOrder(fs, events)
    case Some(m) => InOrderAfter(fs, m, events)
  }

  lemma {:induction false} PlainFirst(f: F.Frame, fs: seq<F.Frame>, events: seq<Event>)
    requires !f.Block? && InOrder(fs, events)
    ensures InOrder([f] + fs, [Event.Plain(f)] + events)
  {
    assert ([f] + fs)[1..] == fs && ([Event.Plain(f)] + events)[1..] == events;
  }

  lemma {:induction false} WholeFirst(pending: Option<Msg>, f: F.Frame, m: Msg, fields: seq<HeaderField>, fs: seq<F.Frame>, events: seq<Event>)
    requires f.Block? && Follows(pending, f) && EndsHeaders(f) && m.id == f.id && (pending.Some? ==> pending.value == m)
    requires InOrder(fs, events)
    ensures Ordered(pending, [f] + fs, [Message(m, fields)] + events)
  {
    var all, evs := [f] + fs, [Message(m, fields)] + events;
    assert all[..1] == [f] && all[1..] == fs && evs[1..] == events && [f][1..] == [];
  }

  lemma {:induction false} PartFirst(pending: Option<Msg>, f: F.Frame, m: Msg, fs: seq<F.Frame>, events: seq<Event>)
    requires f.Block? && Follows(pending, f) && !EndsHeaders(f) && m.id == f.id && (pending.Some? ==> pending.value == m)
    requires InOrderAfter(fs, m, events)
    ensures Ordered(pending, [f] + fs, events)
  {
    var k :| 0 < k <= |fs| && Continued(fs[..k], m.id) && InOrder(fs[k..], events[1..]);
    var all := [f] + fs;
    var block := all[..k + 1];
    assert all[k + 1..] == fs[k..] && block == [f] + fs[..k] && block[1..] == fs[..k];
    assert forall i :: 1 <= i < |block| ==> block[i] == fs[..k][i - 1];
    if pending.Some? { assert Continued(block, m.id); } else { assert OneBlock(block, m.id); }
  }

  /** Whatever frames arrive: if the reader accepts them all and is in no block at the end, they are whole header
      blocks of one stream each, with nothing in between, and single frames, in the order of what is returned. */
  lemma {:induction false} NoInterleaving(c: Config, st: State, fs: seq<F.Frame>)
    requires Sound(st) && c.chunk > 0
    ensures var a := Assemble(c, st, fs);
      a.err == None && a.st.pending == None ==> Ordered(st.pending, fs, a.events)
    decreases |fs|
  {
    if fs != [] {
      var f, tail := fs[0], fs[1..];
      assert fs == [f] + tail;
      var a := Assemble(c, st, fs);
      if f.Block? {
        var r := ReadBlock(c, st, f);
        AssembleOne(c, st, f, tail);
        ReadBlockOrder(c, st, f);
        match r
        case Failed(_) =>
        case Continue(st1) =>
          NoInterleaving(c, st1, tail);
          if a.err == None && a.st.pending == None { PartFirst(st.pending, f, st1.pending.value, tail, a.events); }
        case Complete(m, fields, st1) =>
          NoInterleaving(c, st1, tail);
          if a.err == None && a.st.pending == None { WholeFirst(st.pending, f, m, fields, tail, Assemble(c, st1, tail).events); }
      } else if st.pending == None {
        NoInterleaving(c, st, tail);
        if a.err == None && a.st.pending == None { PlainFirst(f, tail, Assemble(c, st, tail).events); }
      }
    }
  }

  // ----- What a block is read as

  /** The payloads of the frames, one after the other. */
  function Payloads(fs: seq<F.Frame>): (s: seq<Byte>)
    requires forall i :: 0 <= i < |fs| ==> fs[i].Block?
  {
    if fs == [] then [] else fs[0].payload + Payloads(fs[1..])
  }

  /** The outcome of reading a block is that of decoding it in one piece: accepted if and only if it decodes
      without error and to its end. */
  ghost predicate ReadAs(a: Assembled, m: Msg, d: Decoder) {
    && (a.err == None <==> d.err == None && d.leftover == [])
    && (a.err == None ==> a.events == [Message(m, d.calls)] && a.st == State(Reset(d).0, None))
    && (a.err != None ==> a.events == [] && a.err == Some(if d.err.Some? then Decoding(d.err.value) else CutShort))
  }

  lemma {:induction false} LastRead(c: Config, d: Decoder, m: Msg, s: seq<Byte>, st: State, f: F.Frame)
    requires d.table.size < TWO32 && d.n < TWO32 && c.chunk > 0 && Sound(st) && f.Block?
    requires ReadBlock(c, st, f) == HM.Decoded(c, d, m, s, true)
    ensures ReadAs(Assemble(c, st, [f]), m, Decode(c.cb, c.h, c.limit, d, s))
  {
    FeedIsDecode(c, d, s);
    AssembleOne(c, st, f, []);
    assert [f] + [] == [f];
    var d1 := Decode(c.cb, c.h, c.limit, d, s);
    if d1.err == None && d1.leftover == [] {
      var st1 := State(Reset(d1).0, None);
      assert Assemble(c, st1, []) == Assembled([], st1, None);
      assert [Message(m, d1.calls)] + [] == [Message(m, d1.calls)];
    }
  }

  /** A frame before the last, and those after it. */
  lemma {:induction false} PartRead(c: Config, d: Decoder, m: Msg, s: seq<Byte>, st: State, f: F.Frame, more: seq<F.Frame>)
    requires d.table.size < TWO32 && d.n < TWO32 && c.chunk > 0 && Sound(st) && f.Block? && Continued(more, m.id)
    requires ReadBlock(c, st, f) == HM.Decoded(c, d, m, s, false)
    ensures ReadAs(Assemble(c, st, [f] + more), m, Decode(c.cb, c.h, c.limit, d, s + Payloads(more)))
    decreases |more|, 1
  {
    FeedIsDecode(c, d, s);
    AssembleOne(c, st, f, more);
    DecodeSplit(c.cb, c.h, c.limit, d, s, Payloads(more));
    var d1 := Decode(c.cb, c.h, c.limit, d, s);
    if d1.err == None { ContinuedRead(c, d1, m, more); }
  }

  lemma {:induction false} ContinuedRead(c: Config, d: Decoder, m: Msg, fs: seq<F.Frame>)
    requires d.table.size < TWO32 && d.n < TWO32 && c.chunk > 0 && Continued(fs, m.id)
    ensures ReadAs(Assemble(c, State(d, Some(m)), fs), m, Decode(c.cb, c.h, c.limit, d, Payloads(fs)))
    decreases |fs|, 0
  {
    var st, f, tail := State(d, Some(m)), fs[0], fs[1..];
    assert IsContinuation(fs[0], m.id) && EndsHeaders(fs[0]) == (0 == |fs| - 1);
    assert fs == [f] + tail;
    if tail == [] {
      assert fs == [f] && f.payload + [] == f.payload;
      assert Payloads(fs) == f.payload;
      LastRead(c, d, m, f.payload, st, f);
    } else {
      assert forall i :: 0 <= i < |tail| ==> tail[i] == fs[i + 1];
      PartRead(c, d, m, f.payload, st, f, tail);
    }
  }

  /** For any frames of one block: it is accepted if and only if its fragments, put together, decode without error
      and to the end, and then returned as the fields so decoded. */
  lemma {:induction false} BlockReadIff(c: Config, st: State, fs: seq<F.Frame>, id: nat, m: Msg, fragment: seq<Byte>)
    requires Sound(st) && st.pending == None && c.chunk > 0 && OneBlock(fs, id) && Open(fs[0]) == Start(m, fragment)
    requires forall i :: 0 <= i < |fs| ==> fs[i].Block?
    ensures m.id == id
    ensures ReadAs(Assemble(c, st, fs), m, Decode(c.cb, c.h, c.limit, st.dec.(calls := []), fragment + Payloads(fs[1..])))
  {
    var f, tail := fs[0], fs[1..];
    assert fs == [f] + tail;
    if tail == [] {
      assert fs == [f] && fragment + Payloads(fs[1..]) == fragment;
      LastRead(c, st.dec.(calls := []), m, fragment, st, f);
    } else {
      PartRead(c, st.dec.(calls := []), m, fragment, st, f, tail);
    }
  }

  // ----- The parts of a first frame

  /** Any HEADERS payload: too small exactly if it cannot hold its padding, its Pad Length octet and its priority;
      otherwise the fragment is what stands between the fields in front and the padding. */
  lemma {:induction false} HeadersSliced(flags: Byte, id: nat, s: seq<Byte>)
    ensures var padded, prio := flags / 8 % 2 == 1, flags / 32 % 2 == 1;
      var front := (if padded then 1 else 0) + (if prio then 5 else 0);
      var pad: nat := if padded && s != [] then s[0] else 0;
      var r := OpenHeaders(flags, id, s);
      && (r.Small? <==> |s| < front + pad)
      && (r.Start? ==> r.fragment == s[front..|s| - pad] && r.m.HeadersMsg? && r.m.id == id && r.m.pad == pad
                       && r.m.endStream == (flags % 2 == 1))
      && (r.Start? && prio ==>
            F.FromBigEndian(s[front - 5..front - 1]) % TWO31 == r.m.priority.dep && s[front - 1] == r.m.priority.weight
            && r.m.priority.exclusive == (F.FromBigEndian(s[front - 5..front - 1]) % TWO31 != F.FromBigEndian(s[front - 5..front - 1])))
      && (r.Start? && !prio ==> r.m.priority == NO_PRIORITY)
  {
    var padded, prio := flags / 8 % 2 == 1, flags / 32 % 2 == 1;
    var s1 := if padded then Skip(s, 1) else s;
    var r := OpenHeaders(flags, id, s);
    if r.Start? && prio {
      if padded { assert s1[..4] == s[1..5]; } else { assert s1[..4] == s[0..4]; }
    }
  }

  /** Any PUSH_PROMISE payload: likewise, with the promised stream in front. */
  lemma {:induction false} PushSliced(flags: Byte, id: nat, s: seq<Byte>)
    ensures var padded := flags / 8 % 2 == 1;
      var front := (if padded then 1 else 0) + 4;
      var pad: nat := if padded && s != [] then s[0] else 0;
      var r := OpenPush(flags, id, s);
      && (r.Small? <==> |s| < front + pad)
      && (r.Start? ==> r.fragment == s[front..|s| - pad] && r.m == PushMsg(id, F.FromBigEndian(s[front - 4..front]) % TWO31, pad))
  {
    var padded := flags / 8 % 2 == 1;
    var s1 := if padded then Skip(s, 1) else s;
    if OpenPush(flags, id, s).Start? {
      if padded { assert s1[..4] == s[1..5]; } else { assert s1[..4] == s[0..4]; }
    }
  }

  // ----- Keys

  /** Without a limit the regular keys are written unless one is empty or begins with a colon. */
  lemma {:induction false} WrittenIff(cb: Codebook, l: HF.Limits, w: HB.Writer, groups: seq<HB.Group>)
    requires HB.Sane(w) && HF.ValidLimits(l)
    ensures HB.WriteGroups(cb, l, 0, w, groups).1 == None <==>
      forall i :: 0 <= i < |groups| ==> groups[i].key != [] && groups[i].key[0] != 58
  {
    HB.GroupsErrorIff(cb, l, 0, w, groups);
  }
}
