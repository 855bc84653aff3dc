/** Cutting a header block into a HEADERS or PUSH_PROMISE frame and CONTINUATION frames while it is
    being encoded (section 4.3 of RFC 7540). */
module HeaderFrames {
  import opened Wrappers
  import opened Bits
  import opened HpackChunks

  /** The encoded values of one header key, and how many there are. */
  datatype Part = Part(bytes: seq<Byte>, count: nat)

  /** The header block fragment of one frame, and its END_HEADERS flag. */
  datatype Frag = Frag(bytes: seq<Byte>, endHeaders: bool)

  function Count(parts: seq<Part>): (n: nat) {
    if parts == [] then 0 else parts[0].count + Count(parts[1..])
  }

  function Bytes(parts: seq<Part>): (s: seq<Byte>) {
    if parts == [] then [] else parts[0].bytes + Bytes(parts[1..])
  }

  function Block(frags: seq<Frag>): (s: seq<Byte>) {
    if frags == [] then [] else frags[0].bytes + Block(frags[1..])
  }

  /** Frame size limit, and the part of the first frame that is not header block. */
  datatype Limits = Limits(max: nat, other: nat)

  predicate ValidLimits(l: Limits) {
    l.other < l.max
  }

  function Room(l: Limits, first: bool): (n: nat)
    requires ValidLimits(l)
    ensures 0 < n <= l.max
  {
    if first then l.max - l.other else l.max
  }

  datatype Drained = Drained(frags: seq<Frag>, rest: seq<Byte>)

  function FirstFrag(l: Limits, buf: seq<Byte>, done: bool, first: bool): (f: Frag)
    requires ValidLimits(l)
  {
    if |buf| > Room(l, first) then Frag(buf[..Room(l, first)], false) else Frag(buf, done)
  }

  /** The write loop: frames from the buffer until less than a frame is left or, after the last
      field, nothing. */
  function Drain(l: Limits, buf: seq<Byte>, done: bool, first: bool): (d: Drained)
    requires ValidLimits(l)
    ensures d.frags != []
    decreases |buf|
  {
    var f := FirstFrag(l, buf, done, first);
    var rest := buf[|f.bytes|..];
    if |rest| >= l.max || (done && |rest| > 0) then
      var d := Drain(l, rest, done, false);
      Drained([f] + d.frags, d.rest)
    else Drained([f], rest)
  }

  /** The loop over the keys: buffered bytes, keys to come, values to come, and whether no frame
      has been sent yet. */
  function Fragments(l: Limits, buf: seq<Byte>, parts: seq<Part>, remaining: int, first: bool): (frags: seq<Frag>)
    requires ValidLimits(l)
    decreases |parts|
  {
    if parts == [] then []
    else
      var buf', left := buf + parts[0].bytes, remaining - parts[0].count;
      if left > 0 && |buf'| < l.max then Fragments(l, buf', parts[1..], left, first)
      else
        var d := Drain(l, buf', left == 0, first);
        d.frags + Fragments(l, d.rest, parts[1..], left, false)
  }

  /** Every fragment fits its frame. */
  predicate Fits(l: Limits, frags: seq<Frag>, first: bool)
    requires ValidLimits(l)
  {
    forall i :: 0 <= i < |frags| ==> |frags[i].bytes| <= Room(l, first && i == 0)
  }

  /** END_HEADERS on the last fragment exactly, if at all. */
  predicate Ends(frags: seq<Frag>, end: bool) {
    forall i :: 0 <= i < |frags| ==> frags[i].endHeaders == (end && i == |frags| - 1)
  }

  /** What a receiver can make sense of: the block in order, ended once, at the end. */
  ghost predicate WellFormed(l: Limits, frags: seq<Frag>, block: seq<Byte>)
    requires ValidLimits(l)
  {
    frags != [] && Block(frags) == block && Ends(frags, true) && Fits(l, frags, true)
  }

  // ----- The write loop

  lemma {:induction false} BlockJoined(a: seq<Frag>, b: seq<Frag>)
    ensures Block(a + b) == Block(a) + Block(b)
    decreases |a|
  {
    if a == [] {
      assert a + b == b;
    } else {
      assert (a + b)[1..] == a[1..] + b;
      BlockJoined(a[1..], b);
    }
  }

  lemma {:induction false} FitsJoined(l: Limits, a: seq<Frag>, b: seq<Frag>, first: bool)
    requires ValidLimits(l) && a != [] && Fits(l, a, first) && Fits(l, b, false)
    ensures Fits(l, a + b, first)
  {
    forall i | 0 <= i < |a + b| ensures |(a + b)[i].bytes| <= Room(l, first && i == 0) {
      if i >= |a| { assert (a + b)[i] == b[i - |a|]; }
    }
  }

  lemma {:induction false} EndsJoined(a: seq<Frag>, b: seq<Frag>, end: bool)
    requires b != [] && Ends(a, false) && Ends(b, end)
    ensures Ends(a + b, end)
  {
  }

  ghost predicate Drains(l: Limits, buf: seq<Byte>, done: bool, first: bool, d: Drained)
    requires ValidLimits(l)
  {
    && Block(d.frags) + d.rest == buf && (done ==> d.rest == []) && |d.rest| < l.max
    && Ends(d.frags, done) && Fits(l, d.frags, first)
  }

  lemma {:induction false} OneFrag(l: Limits, buf: seq<Byte>, done: bool, first: bool)
    requires ValidLimits(l)
    ensures var f := FirstFrag(l, buf, done, first);
      && |f.bytes| <= |buf| && f.bytes == buf[..|f.bytes|] && |f.bytes| <= Room(l, first)
      && Block([f]) == f.bytes
      && (f.endHeaders <==> done && |f.bytes| == |buf|)
      && (|f.bytes| == 0 ==> buf == [])
  {
    var f := FirstFrag(l, buf, done, first);
    assert [f][1..] == [] && f.bytes + [] == f.bytes;
  }

  lemma {:induction false} DrainMeaning(l: Limits, buf: seq<Byte>, done: bool, first: bool)
    requires ValidLimits(l)
    ensures Drains(l, buf, done, first, Drain(l, buf, done, first))
    decreases |buf|
  {
    OneFrag(l, buf, done, first);
    var f := FirstFrag(l, buf, done, first);
    var rest := buf[|f.bytes|..];
    assert f.bytes + rest == buf;
    if |rest| >= l.max || (done && |rest| > 0) {
      var d := Drain(l, rest, done, false);
      DrainMeaning(l, rest, done, false);
      DrainMore(l, f, rest, done, first, d);
    }
  }

  lemma {:induction false} DrainMore(l: Limits, f: Frag, rest: seq<Byte>, done: bool, first: bool, d: Drained)
    requires ValidLimits(l) && d.frags != [] && Drains(l, rest, done, false, d)
    requires !f.endHeaders && |f.bytes| <= Room(l, first)
    ensures Drains(l, f.bytes + rest, done, first, Drained([f] + d.frags, d.rest))
  {
    assert ([f] + d.frags)[1..] == d.frags;
    Assoc(f.bytes, Block(d.frags), d.rest);
    FitsJoined(l, [f], d.frags, first);
    EndsJoined([f], d.frags, done);
  }

  // ----- The loop over the keys

  /** There is a key, and the last key visited has a value unless it is the only one. */
  predicate Writable(parts: seq<Part>) {
    parts != [] && (|parts| == 1 || parts[|parts| - 1].count > 0)
  }

  lemma {:induction false} LastCounts(parts: seq<Part>)
    requires parts != [] && parts[|parts| - 1].count > 0
    ensures Count(parts) > 0
  {
    if |parts| > 1 { LastCounts(parts[1..]); }
  }

  /** Whatever is buffered, the fragments carry it and all the parts, and end once. */
  lemma {:induction false} FragmentsMeaning(l: Limits, buf: seq<Byte>, parts: seq<Part>, first: bool)
    requires ValidLimits(l) && Writable(parts)
    ensures var frags := Fragments(l, buf, parts, Count(parts), first);
      frags != [] && Block(frags) == buf + Bytes(parts) && Ends(frags, true) && Fits(l, frags, first)
    decreases |parts|
  {
    var p, tail := parts[0], parts[1..];
    var buf' := buf + p.bytes;
    Assoc(buf, p.bytes, Bytes(tail));
    if tail == [] {
      DrainMeaning(l, buf', true, first);
      var d := Drain(l, buf', true, first);
      assert Fragments(l, d.rest, tail, 0, false) == [];
      assert d.frags + [] == d.frags && Block(d.frags) + [] == Block(d.frags);
      assert buf' + Bytes(tail) == buf';
    } else {
      assert tail[|tail| - 1] == parts[|parts| - 1];
      LastCounts(tail);
      if |buf'| < l.max {
        FragmentsMeaning(l, buf', tail, first);
      } else {
        DrainMeaning(l, buf', false, first);
        var d := Drain(l, buf', false, first);
        FragmentsMeaning(l, d.rest, tail, false);
        FragmentsMore(l, buf', tail, first, d, Fragments(l, d.rest, tail, Count(tail), false));
      }
    }
  }

  lemma {:induction false} FragmentsMore(l: Limits, buf: seq<Byte>, tail: seq<Part>, first: bool, d: Drained, more: seq<Frag>)
    requires ValidLimits(l) && d.frags != [] && Drains(l, buf, false, first, d)
    requires more != [] && Block(more) == d.rest + Bytes(tail) && Ends(more, true) && Fits(l, more, false)
    ensures var frags := d.frags + more;
      frags != [] && Block(frags) == buf + Bytes(tail) && Ends(frags, true) && Fits(l, frags, first)
  {
    BlockJoined(d.frags, more);
    Assoc(Block(d.frags), d.rest, Bytes(tail));
    FitsJoined(l, d.frags, more, first);
    EndsJoined(d.frags, more, true);
  }

  /** Fragments before the last fill their frames. */
  predicate Filled(l: Limits, frags: seq<Frag>, first: bool)
    requires ValidLimits(l)
  {
    forall i :: 0 <= i < |frags| - 1 ==> |frags[i].bytes| == Room(l, first && i == 0)
  }

  /** All do. */
  predicate AllFilled(l: Limits, frags: seq<Frag>, first: bool)
    requires ValidLimits(l)
  {
    forall i :: 0 <= i < |frags| ==> |frags[i].bytes| == Room(l, first && i == 0)
  }

  lemma {:induction false} FilledJoined(l: Limits, a: seq<Frag>, b: seq<Frag>, first: bool)
    requires ValidLimits(l) && a != [] && AllFilled(l, a, first)
    ensures Filled(l, b, false) ==> Filled(l, a + b, first)
    ensures AllFilled(l, b, false) ==> AllFilled(l, a + b, first)
  {
    forall i | 0 <= i < |a + b| && (i < |a| || |b[i - |a|].bytes| == Room(l, false))
      ensures |(a + b)[i].bytes| == Room(l, first && i == 0) {
      if i >= |a| { assert (a + b)[i] == b[i - |a|]; }
    }
    if Filled(l, b, false) {
      forall i | 0 <= i < |a + b| - 1 ensures |(a + b)[i].bytes| == Room(l, first && i == 0) {
        if i >= |a| { assert (a + b)[i] == b[i - |a|]; }
      }
    }
  }

  lemma {:induction false} DrainFilled(l: Limits, buf: seq<Byte>, done: bool, first: bool)
    requires ValidLimits(l)
    ensures Filled(l, Drain(l, buf, done, first).frags, first)
    ensures !done && |buf| >= l.max ==> AllFilled(l, Drain(l, buf, done, first).frags, first)
    decreases |buf|
  {
    OneFrag(l, buf, done, first);
    var f := FirstFrag(l, buf, done, first);
    var rest := buf[|f.bytes|..];
    if |rest| >= l.max || (done && |rest| > 0) {
      DrainFilled(l, rest, done, false);
      FilledJoined(l, [f], Drain(l, rest, done, false).frags, first);
    }
  }

  /** However the fields are spread over the keys, no frame before the last is sent before it is full. */
  lemma {:induction false} FragmentsFilled(l: Limits, buf: seq<Byte>, parts: seq<Part>, first: bool)
    requires ValidLimits(l) && Writable(parts)
    ensures Filled(l, Fragments(l, buf, parts, Count(parts), first), first)
    decreases |parts|
  {
    var tail, buf' := parts[1..], buf + parts[0].bytes;
    if tail == [] {
      DrainFilled(l, buf', true, first);
      var d := Drain(l, buf', true, first);
      assert Fragments(l, d.rest, tail, 0, false) == [];
      assert d.frags + [] == d.frags;
    } else {
      assert tail[|tail| - 1] == parts[|parts| - 1];
      LastCounts(tail);
      if |buf'| < l.max {
        FragmentsFilled(l, buf', tail, first);
      } else {
        DrainFilled(l, buf', false, first);
        var d := Drain(l, buf', false, first);
        FragmentsFilled(l, d.rest, tail, false);
        FilledJoined(l, d.frags, Fragments(l, d.rest, tail, Count(tail), false), first);
      }
    }
  }

  /** While values are to come only full frames are sent, and less than a frame is held back. */
  lemma {:induction false} AbortedFilled(l: Limits, buf: seq<Byte>, parts: seq<Part>, remaining: int, first: bool)
    requires ValidLimits(l) && remaining > Count(parts) && |buf| < l.max
    ensures var frags := Fragments(l, buf, parts, remaining, first);
      AllFilled(l, frags, first) && |buf + Bytes(parts)| < |Block(frags)| + l.max
    decreases |parts|
  {
    if parts != [] {
      var p, tail := parts[0], parts[1..];
      var buf', left := buf + p.bytes, remaining - p.count;
      if |buf'| < l.max {
        AbortedFilled(l, buf', tail, left, first);
      } else {
        DrainMeaning(l, buf', false, first);
        DrainFilled(l, buf', false, first);
        var d := Drain(l, buf', false, first);
        var more := Fragments(l, d.rest, tail, left, false);
        AbortedFilled(l, d.rest, tail, left, false);
        BlockJoined(d.frags, more);
        FilledJoined(l, d.frags, more, first);
      }
    }
  }

  /** A fragment before the last claims to be the last. */
  predicate EndsEarly(frags: seq<Frag>) {
    exists i :: 0 <= i < |frags| - 1 && frags[i].endHeaders
  }

  lemma {:induction false} DoneNotEmpty(l: Limits, buf: seq<Byte>, parts: seq<Part>, first: bool)
    requires ValidLimits(l) && parts != [] && Count(parts) == 0
    ensures Fragments(l, buf, parts, 0, first) != []
  {
  }

  lemma {:induction false} EarlyJoined(a: seq<Frag>, b: seq<Frag>)
    requires EndsEarly(b) || (a != [] && b != [] && a[|a| - 1].endHeaders)
    ensures EndsEarly(a + b)
  {
    if EndsEarly(b) {
      var i :| 0 <= i < |b| - 1 && b[i].endHeaders;
      assert (a + b)[|a| + i].endHeaders;
    } else {
      assert (a + b)[|a| - 1].endHeaders;
    }
  }

  /** Keys without values at the end of the visit bring frames after the one with END_HEADERS. */
  lemma {:induction false} EmptyLastKey(l: Limits, buf: seq<Byte>, parts: seq<Part>, first: bool)
    requires ValidLimits(l) && |parts| > 1 && parts[|parts| - 1].count == 0
    ensures EndsEarly(Fragments(l, buf, parts, Count(parts), first))
    decreases |parts|
  {
    var p, tail := parts[0], parts[1..];
    var buf' := buf + p.bytes;
    assert tail[|tail| - 1] == parts[|parts| - 1];
    if Count(tail) == 0 {
      DrainMeaning(l, buf', true, first);
      var d := Drain(l, buf', true, first);
      DoneNotEmpty(l, d.rest, tail, false);
      EarlyJoined(d.frags, Fragments(l, d.rest, tail, 0, false));
    } else {
      OnlyKey(tail);
      if |buf'| < l.max {
        EmptyLastKey(l, buf', tail, first);
      } else {
        var d := Drain(l, buf', false, first);
        EmptyLastKey(l, d.rest, tail, false);
        EarlyJoined(d.frags, Fragments(l, d.rest, tail, Count(tail), false));
      }
    }
  }

  lemma {:induction false} OnlyKey(parts: seq<Part>)
    requires parts != [] && Count(parts) > 0 && parts[|parts| - 1].count == 0
    ensures |parts| > 1
  {
    assert parts[1..] == [] ==> Count(parts) == parts[0].count;
  }

  /** A header with fields is written as a well-formed block exactly if the visit of its regular
      keys ends well: there is one, and the last has a value or is alone. */
  lemma {:induction false} FragmentsWellFormedIff(l: Limits, buf: seq<Byte>, parts: seq<Part>)
    requires ValidLimits(l)
    ensures WellFormed(l, Fragments(l, buf, parts, Count(parts), true), buf + Bytes(parts)) <==> Writable(parts)
  {
    if Writable(parts) {
      FragmentsMeaning(l, buf, parts, true);
    } else if parts != [] {
      EmptyLastKey(l, buf, parts, true);
    }
  }

  lemma {:induction false} EndsNowhere(a: seq<Frag>, b: seq<Frag>)
    requires Ends(a, false) && Ends(b, false)
    ensures Ends(a + b, false)
  {
  }

  /** While values are to come, what is written is a beginning of the block and does not end it. */
  lemma {:induction false} AbortedPrefix(l: Limits, buf: seq<Byte>, parts: seq<Part>, remaining: int, first: bool)
    requires ValidLimits(l) && remaining > Count(parts)
    ensures var frags := Fragments(l, buf, parts, remaining, first);
      Ends(frags, false) && Block(frags) <= buf + Bytes(parts) && Fits(l, frags, first)
    decreases |parts|
  {
    if parts != [] {
      var p, tail := parts[0], parts[1..];
      var buf', left := buf + p.bytes, remaining - p.count;
      Assoc(buf, p.bytes, Bytes(tail));
      if |buf'| < l.max {
        AbortedPrefix(l, buf', tail, left, first);
      } else {
        DrainMeaning(l, buf', false, first);
        var d := Drain(l, buf', false, first);
        var more := Fragments(l, d.rest, tail, left, false);
        AbortedPrefix(l, d.rest, tail, left, false);
        BlockJoined(d.frags, more);
        EndsNowhere(d.frags, more);
        FitsJoined(l, d.frags, more, first);
        Assoc(Block(d.frags), d.rest, Bytes(tail));
      }
    }
  }

  predicate HasEnd(frags: seq<Frag>) {
    exists i :: 0 <= i < |frags| && frags[i].endHeaders
  }

  lemma {:induction false} HasEndJoined(a: seq<Frag>, b: seq<Frag>)
    ensures HasEnd(a + b) <==> HasEnd(a) || HasEnd(b)
  {
    if HasEnd(a) {
      var i :| 0 <= i < |a| && a[i].endHeaders;
      assert (a + b)[i].endHeaders;
    }
    if HasEnd(b) {
      var i :| 0 <= i < |b| && b[i].endHeaders;
      assert (a + b)[|a| + i].endHeaders;
    }
  }

  lemma {:induction false} EndsSomewhere(l: Limits, buf: seq<Byte>, parts: seq<Part>, first: bool)
    requires ValidLimits(l) && parts != []
    ensures HasEnd(Fragments(l, buf, parts, Count(parts), first))
    decreases |parts|
  {
    var tail := parts[1..];
    var buf', left := buf + parts[0].bytes, Count(tail);
    if left > 0 && |buf'| < l.max {
      EndsSomewhere(l, buf', tail, first);
    } else {
      DrainMeaning(l, buf', left == 0, first);
      var d := Drain(l, buf', left == 0, first);
      var more := Fragments(l, d.rest, tail, left, false);
      if tail == [] {
        assert d.frags[|d.frags| - 1].endHeaders;
      } else {
        EndsSomewhere(l, d.rest, tail, false);
      }
      HasEndJoined(d.frags, more);
    }
  }

  /** The end of the block is written exactly with the last of the values announced. */
  lemma {:induction false} EndedIff(l: Limits, buf: seq<Byte>, parts: seq<Part>, remaining: int, first: bool)
    requires ValidLimits(l) && remaining >= Count(parts)
    ensures HasEnd(Fragments(l, buf, parts, remaining, first)) <==> parts != [] && remaining == Count(parts)
  {
    if remaining > Count(parts) {
      AbortedPrefix(l, buf, parts, remaining, first);
    } else if parts != [] {
      EndsSomewhere(l, buf, parts, first);
    }
  }

  // ----- The loops as the source has them

  method CutFrag(l: Limits, buf: seq<Byte>, done: bool, firstFrameSent: bool) returns (f: Frag)
    requires ValidLimits(l)
    ensures f == FirstFrag(l, buf, done, !firstFrameSent)
  {
    var fragmentLen, endHeaders := |buf|, false;
    var most := if firstFrameSent then l.max else l.max - l.other;
    if fragmentLen > most {
      fragmentLen := most;
    } else if done {
      endHeaders := true;
    }
    f := Frag(buf[..fragmentLen], endHeaders);
  }

  /** The frames of one pass through the write label. */
  method WriteOut(l: Limits, buf: seq<Byte>, done: bool, first: bool) returns (frags: seq<Frag>, rest: seq<Byte>)
    requires ValidLimits(l)
    ensures Drained(frags, rest) == Drain(l, buf, done, first)
  {
    ghost var goal := Drain(l, buf, done, first);
    var again, firstFrameSent := true, !first;
    frags, rest := [], buf;
    assert [] + goal.frags == goal.frags;
    while again
      invariant goal == Pending(l, frags, rest, done, !firstFrameSent, again)
      decreases |rest| + if again then 1 else 0
    {
      var f := CutFrag(l, rest, done, firstFrameSent);
      DrainStep(l, frags, rest, done, !firstFrameSent, f);
      frags, rest, firstFrameSent := frags + [f], rest[|f.bytes|..], true;
      again := |rest| >= l.max || (done && |rest| > 0);
    }
  }

  /** The outcome of the loop, given the frames written and the buffer. */
  function Pending(l: Limits, frags: seq<Frag>, rest: seq<Byte>, done: bool, first: bool, again: bool): (d: Drained)
    requires ValidLimits(l)
  {
    if again then Drained(frags + Drain(l, rest, done, first).frags, Drain(l, rest, done, first).rest)
    else Drained(frags, rest)
  }

  lemma {:induction false} DrainStep(l: Limits, frags: seq<Frag>, buf: seq<Byte>, done: bool, first: bool, f: Frag)
    requires ValidLimits(l) && f == FirstFrag(l, buf, done, first)
    ensures |f.bytes| <= |buf| && (|f.bytes| == 0 ==> buf == [])
    ensures var rest := buf[|f.bytes|..];
      Pending(l, frags, buf, done, first, true) ==
      Pending(l, frags + [f], rest, done, false, |rest| >= l.max || (done && |rest| > 0))
  {
    OneFrag(l, buf, done, first);
    var rest := buf[|f.bytes|..];
    Assoc(frags, [f], Drain(l, rest, done, false).frags);
  }
}
