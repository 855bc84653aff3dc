/** One direction of a connection, from the frames a writer is given to what the reader returns: all
    frame types, header blocks through HPACK, and settings that take effect on both sides at the
    acknowledgement, which the writer sends after applying them and the reader applies on receipt. */
module Conversation {
  import opened Wrappers
  import opened Bits
  import opened HeaderTable
  import opened Hpack
  import opened HpackLockstep
  import opened HpackResize
  import HB = HeaderBlocks
  import M = HeaderMessages
  import F = Frames
  import R = FrameReader
  import S = SettingsList

  // ----- Both ends

  datatype Sender = Sender(enc: Encoder, max: nat, limit: nat)

  /** The reader, with the settings whose acknowledgement it waits for. */
  datatype Receiver = Receiver(r: R.Reader, st: M.State, max: nat, limit: nat, queue: seq<S.Settings>)

  ghost predicate Usable(list: S.Settings) {
    S.ValidValues(list) &&
    forall i :: 0 <= i < |list| ==>
      list[i].value < TWO32 && (list[i].id == S.HEADER_TABLE_SIZE ==> list[i].value < TWO31)
  }

  function SenderPut(w: Sender, x: S.Setting): (w': Sender)
    requires w.enc.table.size < TWO32
  {
    if x.id == S.HEADER_TABLE_SIZE then w.(enc := EncSetMax(w.enc, x.value))
    else if x.id == S.MAX_FRAME_SIZE then w.(max := x.value)
    else if x.id == S.MAX_HEADER_LIST_SIZE then w.(limit := x.value)
    else w
  }

  function ReceiverPut(v: Receiver, x: S.Setting): (v': Receiver)
    requires v.st.dec.table.size < TWO32
  {
    if x.id == S.HEADER_TABLE_SIZE then v.(st := v.st.(dec := DecSetMax(v.st.dec, x.value)))
    else if x.id == S.MAX_FRAME_SIZE then v.(max := x.value)
    else if x.id == S.MAX_HEADER_LIST_SIZE then v.(limit := x.value)
    else v
  }

  lemma {:induction false} PutSizes(w: Sender, v: Receiver, x: S.Setting)
    requires w.enc.table.size < TWO32 && v.st.dec.table.size < TWO32
    ensures SenderPut(w, x).enc.table.size < TWO32 && ReceiverPut(v, x).st.dec.table.size < TWO32
    ensures ReceiverPut(v, x).st.dec.n == v.st.dec.n
  {
    SetMaxSize32(w.enc.table, x.value);
    SetMaxSize32(v.st.dec.table, x.value);
  }

  /** applySettings of the writer's side for what concerns the direction. */
  ghost function SenderApply(w: Sender, list: S.Settings): (w': Sender)
    requires w.enc.table.size < TWO32
    ensures w'.enc.table.size < TWO32
    decreases |list|
  {
    if list == [] then w
    else
      SetMaxSize32(w.enc.table, list[0].value);
      SenderApply(SenderPut(w, list[0]), list[1..])
  }

  ghost function ReceiverApply(v: Receiver, list: S.Settings): (v': Receiver)
    requires M.Sound(v.st)
    ensures M.Sound(v'.st)
    decreases |list|
  {
    if list == [] then v
    else
      SetMaxSize32(v.st.dec.table, list[0].value);
      ReceiverApply(ReceiverPut(v, list[0]), list[1..])
  }

  /** Between messages the two ends agree on the table, the frame size and the header list size. */
  ghost predicate Agree(w: Sender, v: Receiver) {
    && Synced(w.enc, v.st.dec) && v.st.pending == None
    && w.max == v.max && w.limit == v.limit && 261 < w.max < F.TWO24 && w.limit < TWO32
  }

  lemma {:induction false} PutKeepsAgree(w: Sender, v: Receiver, x: S.Setting)
    requires Agree(w, v) && S.ValidValue(x.id, x.value) && x.value < TWO32
    requires x.id == S.HEADER_TABLE_SIZE ==> x.value < TWO31
    ensures Agree(SenderPut(w, x), ReceiverPut(v, x))
  {
    if x.id == S.HEADER_TABLE_SIZE { ResizeKeepsSynced(w.enc, v.st.dec, x.value); }
  }

  lemma {:induction false} ApplyKeepsAgree(w: Sender, v: Receiver, list: S.Settings)
    requires Agree(w, v) && Usable(list)
    ensures var v' := ReceiverApply(v, list);
      Agree(SenderApply(w, list), v') && v'.r == v.r && v'.queue == v.queue
    decreases |list|
  {
    if list != [] {
      var x, tail := list[0], list[1..];
      assert S.ValidValue(list[0].id, list[0].value);
      PutKeepsAgree(w, v, x);
      PutSizes(w, v, x);
      assert forall i :: 0 <= i < |tail| ==> tail[i] == list[i + 1];
      ApplyKeepsAgree(SenderPut(w, x), ReceiverPut(v, x), tail);
    }
  }

  // ----- A list and what is read of it

  /** The table sizes in a list. */
  function Sizes(list: S.Settings): (xs: seq<nat>)
    decreases |list|
  {
    if list == [] then []
    else (if list[0].id == S.HEADER_TABLE_SIZE then [list[0].value] else []) + Sizes(list[1..])
  }

  predicate AtLeast(xs: seq<nat>, n: nat) {
    forall i :: 0 <= i < |xs| ==> n <= xs[i]
  }

  predicate SizesAtLeast(list: S.Settings, n: nat) {
    forall i :: 0 <= i < |list| && list[i].id == S.HEADER_TABLE_SIZE ==> n <= list[i].value
  }

  lemma {:induction false} AtLeastIff(list: S.Settings, n: nat)
    ensures AtLeast(Sizes(list), n) <==> SizesAtLeast(list, n)
    decreases |list|
  {
    if list != [] {
      AtLeastIff(list[1..], n);
      SizesSplit(list);
      AtLeastSplit(list, n);
    }
  }

  lemma {:induction false} SizesSplit(list: S.Settings)
    requires list != []
    ensures if list[0].id == S.HEADER_TABLE_SIZE
            then Sizes(list) != [] && Sizes(list)[0] == list[0].value && Sizes(list)[1..] == Sizes(list[1..])
            else Sizes(list) == Sizes(list[1..])
  {
    assert [] + Sizes(list[1..]) == Sizes(list[1..]);
  }

  lemma {:induction false} AtLeastSplit(list: S.Settings, n: nat)
    requires list != []
    ensures SizesAtLeast(list, n) <==> (list[0].id == S.HEADER_TABLE_SIZE ==> n <= list[0].value) && SizesAtLeast(list[1..], n)
    ensures Sizes(list) != [] ==> (AtLeast(Sizes(list), n) <==> n <= Sizes(list)[0] && AtLeast(Sizes(list)[1..], n))
  {
    var tail, xs := list[1..], Sizes(list);
    assert forall i :: 0 <= i < |tail| ==> tail[i] == list[i + 1];
    if (list[0].id == S.HEADER_TABLE_SIZE ==> n <= list[0].value) && SizesAtLeast(tail, n) {
      forall i | 0 <= i < |list| && list[i].id == S.HEADER_TABLE_SIZE ensures n <= list[i].value {
        if i > 0 { assert list[i] == tail[i - 1]; }
      }
    }
    if xs != [] && n <= xs[0] && AtLeast(xs[1..], n) {
      forall i | 0 <= i < |xs| ensures n <= xs[i] {
        if i > 0 { assert xs[i] == xs[1..][i - 1]; }
      }
    }
  }

  lemma {:induction false} SmallSizes(list: S.Settings)
    requires Usable(list)
    ensures Small(Sizes(list))
    decreases |list|
  {
    if list != [] {
      var tail := list[1..];
      assert forall i :: 0 <= i < |tail| ==> tail[i] == list[i + 1];
      SmallSizes(tail);
      SizesSplit(list);
      var xs := Sizes(list);
      forall i | 0 <= i < |xs| ensures xs[i] < TWO31 {
        if list[0].id == S.HEADER_TABLE_SIZE && i > 0 { assert xs[i] == xs[1..][i - 1]; }
      }
    }
  }

  lemma {:induction false} LastSize(list: S.Settings, default: nat)
    ensures Sizes(list) != [] ==> Sizes(list)[|Sizes(list)| - 1] == S.LastOf(list, S.HEADER_TABLE_SIZE, default)
    ensures Sizes(list) == [] ==> S.LastOf(list, S.HEADER_TABLE_SIZE, default) == default
    decreases |list|
  {
    if list != [] {
      LastSize(list[1..], if list[0].id == S.HEADER_TABLE_SIZE then list[0].value else default);
    }
  }

  /** The reader goes through its own list. */
  lemma {:induction false} ReceiverApplyMeaning(v: Receiver, list: S.Settings)
    requires M.Sound(v.st)
    ensures ReceiverApply(v, list) == v.(
      st := v.st.(dec := DecSetAll(v.st.dec, Sizes(list))),
      max := S.LastOf(list, S.MAX_FRAME_SIZE, v.max),
      limit := S.LastOf(list, S.MAX_HEADER_LIST_SIZE, v.limit))
    decreases |list|
  {
    if list != [] {
      SetMaxSize32(v.st.dec.table, list[0].value);
      ReceiverApplyMeaning(ReceiverPut(v, list[0]), list[1..]);
      SizesSplit(list);
    }
  }

  /** The writer applies a list without repetitions. */
  lemma {:induction false} SenderApplyMeaning(w: Sender, list: S.Settings)
    requires w.enc.table.size < TWO32 && S.Distinct(list)
    ensures SenderApply(w, list) == w.(
      enc := match S.Lookup(list, S.HEADER_TABLE_SIZE) case Some(x) => EncSetMax(w.enc, x) case None => w.enc,
      max := S.LookupOr(list, S.MAX_FRAME_SIZE, w.max),
      limit := S.LookupOr(list, S.MAX_HEADER_LIST_SIZE, w.limit))
    decreases |list|
  {
    if list != [] {
      var x, tail := list[0], list[1..];
      assert forall i :: 0 <= i < |tail| ==> tail[i] == list[i + 1];
      SetMaxSize32(w.enc.table, x.value);
      SenderApplyMeaning(SenderPut(w, x), tail);
      NotInTail(list);
    }
  }

  lemma {:induction false} NotInTail(list: S.Settings)
    requires list != [] && S.Distinct(list)
    ensures S.Lookup(list[1..], list[0].id) == None
  {
    var tail := list[1..];
    assert forall i :: 0 <= i < |tail| ==> tail[i] == list[i + 1];
    S.HasIdLookup(tail, list[0].id);
  }

  /** Each table size in a list holds what the encoder has left after the last of them. */
  ghost predicate Ample(w: Sender, own: S.Settings) {
    SizesAtLeast(own, Total(Evict(w.enc.table.entries, S.LastOf(own, S.HEADER_TABLE_SIZE, 0))))
  }

  lemma {:induction false} SizesRead(own: S.Settings)
    requires Usable(own)
    ensures var read := S.Lookup(S.PutAll([], own), S.HEADER_TABLE_SIZE);
      if Sizes(own) == [] then read == None else read == Some(Sizes(own)[|Sizes(own)| - 1])
  {
    var read := S.PutAll([], own);
    S.PutAllLast([], own, S.HEADER_TABLE_SIZE, 0);
    S.PutAllLast([], own, S.HEADER_TABLE_SIZE, 1);
    LastSize(own, 0);
    LastSize(own, 1);
  }

  /** At an acknowledgement the writer has applied what it read of the list and the reader applies the
      list itself. They still agree if and only if each table size in the list is ample. */
  lemma {:induction false} AckAgreesIff(w: Sender, v: Receiver, own: S.Settings)
    requires Agree(w, v) && Usable(own)
    ensures Agree(SenderApply(w, S.PutAll([], own)), ReceiverApply(v, own)) <==> Ample(w, own)
    ensures ReceiverApply(v, own).r == v.r && ReceiverApply(v, own).queue == v.queue
  {
    var read := S.PutAll([], own);
    S.PutAllDistinct([], own);
    SenderApplyMeaning(w, read);
    ReceiverApplyMeaning(v, own);
    LimitsAgree(w, own);
    SizesRead(own);
    SmallSizes(own);
    LastSize(own, 0);
    AtLeastIff(own, Total(Evict(w.enc.table.entries, S.LastOf(own, S.HEADER_TABLE_SIZE, 0))));
    if Sizes(own) != [] {
      DipIff(w.enc, v.st.dec, Sizes(own));
    }
  }

  lemma {:induction false} LimitsAgree(w: Sender, own: S.Settings)
    requires Usable(own) && 261 < w.max < F.TWO24 && w.limit < TWO32
    ensures var max, limit := S.LastOf(own, S.MAX_FRAME_SIZE, w.max), S.LastOf(own, S.MAX_HEADER_LIST_SIZE, w.limit);
      && S.LookupOr(S.PutAll([], own), S.MAX_FRAME_SIZE, w.max) == max && 261 < max < F.TWO24
      && S.LookupOr(S.PutAll([], own), S.MAX_HEADER_LIST_SIZE, w.limit) == limit < TWO32
  {
    S.PutAllLast([], own, S.MAX_FRAME_SIZE, w.max);
    S.PutAllLast([], own, S.MAX_HEADER_LIST_SIZE, w.limit);
    LastBounds(own, w.max, w.limit);
  }

  lemma {:induction false} LastBounds(own: S.Settings, max: nat, limit: nat)
    requires Usable(own) && 261 < max < F.TWO24 && limit < TWO32
    ensures 261 < S.LastOf(own, S.MAX_FRAME_SIZE, max) < F.TWO24
    ensures S.LastOf(own, S.MAX_HEADER_LIST_SIZE, limit) < TWO32
    decreases |own|
  {
    if own != [] {
      var x, tail := own[0], own[1..];
      assert S.ValidValue(own[0].id, own[0].value);
      assert forall i :: 0 <= i < |tail| ==> tail[i] == own[i + 1];
      LastBounds(tail, if x.id == S.MAX_FRAME_SIZE then x.value else max, if x.id == S.MAX_HEADER_LIST_SIZE then x.value else limit);
    }
  }

  /** A list without repetitions is read as it is and always leaves the ends in agreement. */
  lemma {:induction false} DistinctAckAgrees(w: Sender, v: Receiver, own: S.Settings)
    requires Agree(w, v) && Usable(own) && S.Distinct(own)
    ensures S.PutAll([], own) == own && Ample(w, own)
    ensures Agree(SenderApply(w, S.PutAll([], own)), ReceiverApply(v, own))
  {
    S.PutAllIff([], own);
    assert [] + own == own;
    ApplyKeepsAgree(w, v, own);
    AckAgreesIff(w, v, own);
  }

  /** HEADER_TABLE_SIZE=0 and then 4096 in one list is read as 4096: the reader of header blocks empties its
      table, the writer keeps its own, and they no longer agree. */
  lemma {:induction false} DipDisagrees(w: Sender, v: Receiver)
    requires Agree(w, v) && w.enc.table.entries != [] && w.enc.table.maxSize <= 4096
    ensures var own := [S.Setting(S.HEADER_TABLE_SIZE, 0), S.Setting(S.HEADER_TABLE_SIZE, 4096)];
      && S.PutAll([], own) == [S.Setting(S.HEADER_TABLE_SIZE, 4096)]
      && !Agree(SenderApply(w, S.PutAll([], own)), ReceiverApply(v, own))
  {
    var zero, full := S.Setting(S.HEADER_TABLE_SIZE, 0), S.Setting(S.HEADER_TABLE_SIZE, 4096);
    var own := [zero, full];
    assert own[1..] == [full] && [full][1..] == [] && [zero][1..] == [];
    assert S.Put([], S.HEADER_TABLE_SIZE, 0) == [zero] && S.Put([zero], S.HEADER_TABLE_SIZE, 4096) == [full];
    assert S.PutAll([zero], [full]) == S.PutAll([full], []);
    assert S.LastOf(own, S.HEADER_TABLE_SIZE, 0) == S.LastOf([full], S.HEADER_TABLE_SIZE, 0) == 4096;
    AckAgreesIff(w, v, own);
    EvictKeepsFitting(w.enc.table.entries, 4096);
    assert own[0].id == S.HEADER_TABLE_SIZE && own[0].value == 0;
    TotalBound(w.enc.table.entries);
  }

  // ----- Reading

  datatype Event =
    | Plain(h: R.Head, bytes: seq<Byte>)
    | Message(m: M.Msg, fields: seq<HeaderField>)
    | Applied(list: S.Settings)

  /** The role of the reading end, the decoder's tables and handler, the read buffer size, how much the
      caller reads of the content of a frame, and the frame reader. */
  datatype Config = Config(server: bool, cb: Codebook, h: Handler, chunk: nat, take: R.Head -> nat, next: (R.Reader, nat) -> R.Outcome)

  ghost predicate Proper(c: Config) {
    c.chunk > 0 && forall r, max {:trigger R.Next(r, max)} :: c.next(r, max) == R.Next(r, max)
  }

  ghost function BlockConfig(c: Config, v: Receiver): (b: M.Config) {
    M.Config(c.cb, c.h, v.limit, c.chunk)
  }

  /** The rest of ReadFrame and what the connection does with an acknowledgement. */
  datatype Handled = Bad | Fine(events: seq<Event>, v: Receiver)

  ghost predicate Sound(v: Receiver) {
    M.Sound(v.st)
  }

  ghost function Handle(c: Config, v: Receiver, h: R.Head, bytes: seq<Byte>): (r: Handled)
    requires Sound(v) && c.chunk > 0
    ensures r.Fine? ==> Sound(r.v)
  {
    if h.Whole? && h.f.Block? then
      match M.ReadBlock(BlockConfig(c, v), v.st, h.f)
      case Failed(_) => Bad
      case Continue(st) => Fine([], v.(st := st))
      case Complete(m, fields, st) => Fine([Message(m, fields)], v.(st := st))
    else if v.st.pending.Some? then Bad
    else if h == R.Whole(F.Settings(true, [])) then
      if v.queue == [] then Fine([], v)
      else if c.server && S.EnablesPush(v.queue[0]) then Bad
      else Fine([Applied(v.queue[0])], ReceiverApply(v, v.queue[0]).(queue := v.queue[1..]))
    else Fine([Plain(h, bytes)], v)
  }

  /** The caller takes its part of a lazily read content. */
  ghost function TakeFrom(c: Config, v: Receiver, h: R.Head, r: R.Reader): (r': Handled)
    requires Sound(v) && c.chunk > 0
    ensures r'.Fine? ==> Sound(r'.v)
  {
    var m := Min(Min(c.take(h), r.n), |r.input|);
    Handle(c, v.(r := R.Reader(r.input[m..], r.n - m, r.p)), h, r.input[..m])
  }

  /** One frame. */
  ghost function ReadOne(c: Config, v: Receiver): (r: Handled)
    requires Sound(v) && c.chunk > 0
    ensures r.Fine? ==> Sound(r.v)
  {
    match c.next(v.r, v.max)
    case Got(h, r1) => TakeFrom(c, v, h, r1)
    case Skipped(_, _) => Bad
    case Aborted(_) => Bad
    case Short => Bad
  }

  ghost function ReadMany(c: Config, v: Receiver, n: nat): (r: Handled)
    requires Sound(v) && c.chunk > 0
    ensures r.Fine? ==> Sound(r.v)
    decreases n, 0
  {
    if n == 0 then Fine([], v) else Follow(c, ReadOne(c, v), n - 1)
  }

  /** After what was read, n frames more. */
  ghost function Follow(c: Config, r: Handled, n: nat): (r': Handled)
    requires (r.Fine? ==> Sound(r.v)) && c.chunk > 0
    ensures r'.Fine? ==> Sound(r'.v)
    decreases n, 1
  {
    if r.Bad? then Bad else Before(r.events, ReadMany(c, r.v, n))
  }

  function Before(events: seq<Event>, r: Handled): (r': Handled) {
    if r.Bad? then Bad else r.(events := events + r.events)
  }

  lemma {:induction false} BeforeBefore(a: seq<Event>, b: seq<Event>, r: Handled)
    ensures Before(a, Before(b, r)) == Before(a + b, r) && Before([], r) == r
  {
    if r.Fine? {
      Assoc(a, b, r.events);
      assert [] + r.events == r.events;
    }
  }

  lemma {:induction false} FollowSplit(c: Config, r: Handled, n: nat, k: nat)
    requires (r.Fine? ==> Sound(r.v)) && c.chunk > 0
    ensures Follow(c, r, n + k) == Follow(c, Follow(c, r, n), k)
    decreases n, 1
  {
    if r.Fine? {
      ReadManySplit(c, r.v, n, k);
      FollowBefore(c, r.events, ReadMany(c, r.v, n), k);
    }
  }

  lemma {:induction false} FollowBefore(c: Config, events: seq<Event>, r: Handled, k: nat)
    requires (r.Fine? ==> Sound(r.v)) && c.chunk > 0
    ensures Follow(c, Before(events, r), k) == Before(events, Follow(c, r, k))
  {
    if r.Fine? { BeforeBefore(events, r.events, ReadMany(c, r.v, k)); }
  }

  lemma {:induction false} ReadManySplit(c: Config, v: Receiver, n: nat, k: nat)
    requires Sound(v) && c.chunk > 0
    ensures ReadMany(c, v, n + k) == Follow(c, ReadMany(c, v, n), k)
    decreases n, 0
  {
    if n == 0 {
      BeforeBefore([], [], ReadMany(c, v, k));
    } else {
      FollowSplit(c, ReadOne(c, v), n - 1, k);
    }
  }

  // ----- Reading what was written

  /** After the payload it is in, the reader finds these bytes. */
  predicate Positioned(r: R.Reader, s: seq<Byte>) {
    |r.input| >= r.n + r.p && r.input[r.n + r.p..] == s
  }

  function Taken(c: Config, f: F.Frame): (s: seq<Byte>) {
    R.Content(f)[..Min(c.take(R.HeadOf(f)), |R.Content(f)|)]
  }

  lemma {:induction false} NextGot(c: Config, r: R.Reader, f: F.Frame, rest: seq<Byte>, max: nat)
    requires Proper(c) && R.Sendable(f, max) && Positioned(r, R.WireOf(f) + rest)
    ensures c.next(r, max) == R.Got(R.HeadOf(f), R.Unread(f, rest))
  {
    R.FrameOpens(f, rest, max);
    assert R.Next(r, max) == R.Got(R.HeadOf(f), R.Unread(f, rest));
  }

  /** The reader after the caller has taken its part. */
  function LeftOver(c: Config, f: F.Frame, rest: seq<Byte>): (r: R.Reader) {
    var s, z := R.Content(f), F.Zeros(R.PadOf(f));
    var m := Min(c.take(R.HeadOf(f)), |s|);
    R.Reader(s[m..] + z + rest, |s| - m, |z|)
  }

  lemma {:induction false} LeftOverPositioned(c: Config, f: F.Frame, rest: seq<Byte>)
    ensures Positioned(LeftOver(c, f, rest), rest)
  {
    var s, z := R.Content(f), F.Zeros(R.PadOf(f));
    var m := Min(c.take(R.HeadOf(f)), |s|);
    assert (s[m..] + z + rest)[|s| - m + |z|..] == rest;
  }

  lemma {:induction false} TakeUnread(c: Config, v: Receiver, f: F.Frame, rest: seq<Byte>)
    requires Sound(v) && c.chunk > 0
    ensures TakeFrom(c, v, R.HeadOf(f), R.Unread(f, rest)) == Handle(c, v.(r := LeftOver(c, f, rest)), R.HeadOf(f), Taken(c, f))
  {
    var s, z := R.Content(f), F.Zeros(R.PadOf(f));
    R.TakeSome(s, z, rest, Min(c.take(R.HeadOf(f)), |s|));
  }

  lemma {:induction false} OneFrame(c: Config, v: Receiver, f: F.Frame, rest: seq<Byte>) returns (r': R.Reader)
    requires Sound(v) && Proper(c) && R.Sendable(f, v.max) && Positioned(v.r, R.WireOf(f) + rest)
    ensures Positioned(r', rest)
    ensures ReadOne(c, v) == Handle(c, v.(r := r'), R.HeadOf(f), Taken(c, f))
  {
    NextGot(c, v.r, f, rest, v.max);
    TakeUnread(c, v, f, rest);
    LeftOverPositioned(c, f, rest);
    r' := LeftOver(c, f, rest);
  }

  function Lift(events: seq<M.Event>): (r: seq<Event>) {
    if events == [] then []
    else if events[0].Message? then [Message(events[0].m, events[0].fields)] + Lift(events[1..])
    else Lift(events[1..])
  }

  ghost function EventsOf(b: M.Read): (r: seq<Event>) {
    if b.Complete? then [Message(b.m, b.fields)] else []
  }

  lemma {:induction false} LiftMore(b: M.Read, events: seq<M.Event>)
    ensures b.Complete? ==> Lift([M.Message(b.m, b.fields)] + events) == EventsOf(b) + Lift(events)
    ensures [] + Lift(events) == Lift(events)
  {
    if b.Complete? { assert ([M.Message(b.m, b.fields)] + events)[1..] == events; }
  }

  lemma {:induction false} BlockHandled(c: Config, v: Receiver, f: F.Frame, bytes: seq<Byte>, b: M.Read)
    requires Sound(v) && c.chunk > 0 && f.Block? && b == M.ReadBlock(BlockConfig(c, v), v.st, f) && !b.Failed?
    ensures Handle(c, v, R.HeadOf(f), bytes) == Fine(EventsOf(b), v.(st := b.st))
  {
  }

  lemma {:induction false} ReadFirst(c: Config, v: Receiver, n: nat, a: seq<Event>, v1: Receiver, b: seq<Event>, v2: Receiver,
                                     all: seq<Event>)
    requires Sound(v) && c.chunk > 0 && Sound(v1) && n > 0 && all == a + b
    requires ReadOne(c, v) == Fine(a, v1) && ReadMany(c, v1, n - 1) == Fine(b, v2)
    ensures ReadMany(c, v, n) == Fine(all, v2)
  {
  }

  /** Header block frames on the wire are read as module HeaderMessages reads the frames. */
  lemma {:induction false} BlocksRun(c: Config, v: Receiver, fs: seq<F.Frame>, rest: seq<Byte>) returns (r': R.Reader)
    requires Sound(v) && Proper(c) && Positioned(v.r, R.WireAll(fs) + rest)
    requires forall i :: 0 <= i < |fs| ==> fs[i].Block? && R.Sendable(fs[i], v.max)
    requires M.Assemble(BlockConfig(c, v), v.st, fs).err == None
    ensures BlocksRead(c, v, fs, rest, r')
    decreases |fs|
  {
    if fs == [] {
      assert [] + rest == rest;
      r' := v.r;
    } else {
      var f, tail := fs[0], fs[1..];
      Assoc(R.WireOf(f), R.WireAll(tail), rest);
      var r1 := OneFrame(c, v, f, R.WireAll(tail) + rest);
      var b := M.ReadBlock(BlockConfig(c, v), v.st, f);
      assert [f] + tail == fs;
      M.AssembleOne(BlockConfig(c, v), v.st, f, tail);
      BlockHandled(c, v.(r := r1), f, Taken(c, f), b);
      assert forall i :: 0 <= i < |tail| ==> tail[i] == fs[i + 1];
      r' := BlocksRun(c, v.(r := r1, st := b.st), tail, rest);
      BlocksMore(c, v, fs, rest, r1, b, r');
    }
  }

  ghost predicate BlocksRead(c: Config, v: Receiver, fs: seq<F.Frame>, rest: seq<Byte>, r': R.Reader)
    requires Sound(v) && c.chunk > 0
  {
    var a := M.Assemble(BlockConfig(c, v), v.st, fs);
    Positioned(r', rest) && ReadMany(c, v, |fs|) == Fine(Lift(a.events), v.(r := r', st := a.st))
  }

  lemma {:induction false} BlocksMore(c: Config, v: Receiver, fs: seq<F.Frame>, rest: seq<Byte>, r1: R.Reader, b: M.Read, r': R.Reader)
    requires Sound(v) && c.chunk > 0 && fs != [] && fs[0].Block? && !b.Failed?
    requires b == M.ReadBlock(BlockConfig(c, v), v.st, fs[0])
    requires ReadOne(c, v) == Fine(EventsOf(b), v.(r := r1, st := b.st))
    requires BlocksRead(c, v.(r := r1, st := b.st), fs[1..], rest, r')
    ensures BlocksRead(c, v, fs, rest, r')
  {
    var v2 := v.(r := r1, st := b.st);
    var a := M.Assemble(BlockConfig(c, v), b.st, fs[1..]);
    assert BlockConfig(c, v2) == BlockConfig(c, v);
    assert [fs[0]] + fs[1..] == fs;
    M.AssembleOne(BlockConfig(c, v), v.st, fs[0], fs[1..]);
    LiftMore(b, a.events);
    var all := M.Assemble(BlockConfig(c, v), v.st, fs);
    assert all.st == a.st && Lift(all.events) == EventsOf(b) + Lift(a.events);
    ReadFirst(c, v, |fs|, EventsOf(b), v2, Lift(a.events), v.(r := r', st := a.st), Lift(all.events));
  }

  // ----- What is sent

  datatype Item =
    | SendFrame(f: F.Frame)
    | SendHeader(m: M.Msg, pseudo: seq<HB.Group>, groups: seq<HB.Group>)
    | SendAck(read: S.Settings, own: S.Settings)

  function OutgoingOf(w: Sender, it: Item): (o: M.Outgoing)
    requires it.SendHeader?
  {
    M.Outgoing(it.m, it.pseudo, it.groups, w.max, w.limit)
  }

  const ACK := F.Settings(true, [])

  /** Frames the writer accepts and the wire can carry, headers written without error to a reader
      that accepts their fields, and acknowledgements of usable settings with ample table sizes.
      `read` is the list as the writer read it, `own` the reader's own list that it answers. */
  ghost predicate CanSend(c: Config, w: Sender, it: Item)
    requires w.enc.table.size < TWO32
  {
    match it
    case SendFrame(f) => R.Sendable(f, w.max) && !f.Block? && f != ACK
    case SendHeader(m, _, _) =>
      && M.ValidOutgoing(OutgoingOf(w, it))
      && M.Arriving(M.Config(c.cb, c.h, w.limit, c.chunk), w.enc, OutgoingOf(w, it))
    case SendAck(read, own) =>
      Usable(own) && !S.EnablesPush(read) && !(c.server && S.EnablesPush(own)) && Ample(w, own)
  }

  ghost function FramesFor(c: Config, w: Sender, it: Item): (fs: seq<F.Frame>)
    requires w.enc.table.size < TWO32 && CanSend(c, w, it)
  {
    match it
    case SendFrame(f) => [f]
    case SendHeader(m, _, _) => M.FramesOf(m, M.WriteMessage(c.cb, w.enc, OutgoingOf(w, it)).frags)
    case SendAck(_, _) => [ACK]
  }

  ghost function AfterItem(c: Config, w: Sender, it: Item): (w': Sender)
    requires w.enc.table.size < TWO32 && CanSend(c, w, it)
  {
    match it
    case SendFrame(_) => w
    case SendHeader(_, _, _) => w.(enc := M.WriteMessage(c.cb, w.enc, OutgoingOf(w, it)).enc)
    case SendAck(read, _) => SenderApply(w, read)
  }

  function EventFor(c: Config, it: Item): (e: Event) {
    match it
    case SendFrame(f) => Plain(R.HeadOf(f), Taken(c, f))
    case SendHeader(m, pseudo, groups) => Message(m, HB.AllFields(pseudo) + HB.AllFields(groups))
    case SendAck(_, own) => Applied(own)
  }

  /** The settings acknowledged by the items, in order, and what was read of them. */
  function Acks(items: seq<Item>): (lists: seq<S.Settings>) {
    if items == [] then []
    else if items[0].SendAck? then [items[0].own] + Acks(items[1..])
    else Acks(items[1..])
  }

  function ReadsOf(items: seq<Item>): (lists: seq<S.Settings>)
    ensures |lists| == |Acks(items)|
  {
    if items == [] then []
    else if items[0].SendAck? then [items[0].read] + ReadsOf(items[1..])
    else ReadsOf(items[1..])
  }

  /** What was read of each list is what reading makes of it. */
  predicate Answered(it: Item) {
    it.SendAck? ==> it.read == S.PutAll([], it.own)
  }

  predicate AllAnswered(items: seq<Item>) {
    forall i :: 0 <= i < |items| ==> Answered(items[i])
  }

  // ----- Frames of a header fit

  ghost predicate BlocksFit(fs: seq<F.Frame>, max: nat) {
    forall i :: 0 <= i < |fs| ==> fs[i].Block? && R.Sendable(fs[i], max)
  }

  lemma {:induction false} BlocksFitMore(f: F.Frame, fs: seq<F.Frame>, max: nat)
    requires f.Block? && R.Sendable(f, max) && BlocksFit(fs, max)
    ensures BlocksFit([f] + fs, max)
  {
    var gs := [f] + fs;
    forall i | 0 <= i < |gs| ensures gs[i].Block? && R.Sendable(gs[i], max) {
      if i > 0 { assert gs[i] == fs[i - 1]; }
    }
  }

  lemma {:induction false} FirstSendable(m: M.Msg, f: M.HF.Frag, max: nat)
    requires M.ValidMsg(m) && |f.bytes| + M.Other(m) <= max < F.TWO24
    ensures M.FirstFrame(m, f).Block? && R.Sendable(M.FirstFrame(m, f), max)
  {
  }

  lemma {:induction false} NextSendable(m: M.Msg, frags: seq<M.HF.Frag>, max: nat)
    requires M.ValidMsg(m) && max < F.TWO24 && forall i :: 0 <= i < |frags| ==> |frags[i].bytes| <= max
    ensures BlocksFit(M.NextFrames(m, frags), max)
    decreases |frags|
  {
    if frags != [] {
      assert forall i :: 0 <= i < |frags[1..]| ==> frags[1..][i] == frags[i + 1];
      NextSendable(m, frags[1..], max);
      BlocksFitMore(M.NextFrame(m, frags[0]), M.NextFrames(m, frags[1..]), max);
    }
  }

  lemma {:induction false} MessageSendable(m: M.Msg, frags: seq<M.HF.Frag>, max: nat, block: seq<Byte>)
    requires M.ValidMsg(m) && 261 < max < F.TWO24
    requires M.HF.WellFormed(M.HF.Limits(max, M.Other(m)), frags, block)
    ensures BlocksFit(M.FramesOf(m, frags), max)
  {
    var l, tail := M.HF.Limits(max, M.Other(m)), frags[1..];
    assert |frags[0].bytes| <= M.HF.Room(l, true);
    FirstSendable(m, frags[0], max);
    forall i | 0 <= i < |tail| ensures |tail[i].bytes| <= max {
      assert |frags[i + 1].bytes| <= M.HF.Room(l, true && i + 1 == 0);
    }
    NextSendable(m, tail, max);
    BlocksFitMore(M.FirstFrame(m, frags[0]), M.NextFrames(m, tail), max);
  }

  // ----- Arrival

  /** The two ends agree, the reader is at the frames to come and waits for the acknowledgements. */
  ghost predicate InTouch(w: Sender, v: Receiver, s: seq<Byte>) {
    Agree(w, v) && Positioned(v.r, s)
  }

  lemma {:induction false} HeaderArrives(c: Config, w: Sender, v: Receiver, it: Item, rest: seq<Byte>) returns (v': Receiver)
    requires GoodBook(c.cb) && Proper(c) && Agree(w, v) && it.SendHeader? && CanSend(c, w, it)
    requires Positioned(v.r, R.WireAll(FramesFor(c, w, it)) + rest)
    ensures ReadMany(c, v, |FramesFor(c, w, it)|) == Fine([EventFor(c, it)], v')
    ensures InTouch(AfterItem(c, w, it), v', rest) && v'.queue == v.queue
  {
    var o, b := OutgoingOf(w, it), BlockConfig(c, v);
    var fs, written := FramesFor(c, w, it), M.WriteMessage(c.cb, w.enc, o);
    M.WriteMessageMeaning(c.cb, w.enc, o);
    MessageSendable(it.m, written.frags, w.max, EncFields(c.cb, w.enc, M.Fields(o)).1);
    assert fs + [] == fs;
    var d' := M.MessageArrives(b, w.enc, v.st.dec, o, []);
    assert v.st == M.State(v.st.dec, None);
    var a := M.Assemble(b, v.st, fs);
    assert a.events == [M.Message(it.m, M.Fields(o))] + [];
    var r' := BlocksRun(c, v, fs, rest);
    assert a.events[1..] == [];
    assert Lift(a.events) == [EventFor(c, it)];
    v' := v.(r := r', st := a.st);
  }

  lemma {:induction false} AckSendable(max: nat)
    requires max < F.TWO24
    ensures R.Sendable(ACK, max) && R.HeadOf(ACK) == R.Whole(ACK)
  {
  }

  lemma {:induction false} WireOfOne(f: F.Frame)
    ensures R.WireAll([f]) == R.WireOf(f)
  {
    assert [f][1..] == [] && R.WireOf(f) + [] == R.WireOf(f);
  }

  lemma {:induction false} ReadManyOne(c: Config, v: Receiver)
    requires Sound(v) && c.chunk > 0
    ensures ReadMany(c, v, 1) == ReadOne(c, v)
  {
    var r := ReadOne(c, v);
    if r.Fine? { assert r.events + [] == r.events; }
  }

  lemma {:induction false} AckArrives(c: Config, w: Sender, v: Receiver, own: S.Settings, rest: seq<Byte>) returns (v': Receiver)
    requires Agree(w, v) && Usable(own) && Ample(w, own) && !(c.server && S.EnablesPush(own))
    requires Proper(c) && v.queue != [] && v.queue[0] == own
    requires Positioned(v.r, R.WireOf(ACK) + rest)
    ensures ReadMany(c, v, 1) == Fine([Applied(own)], v')
    ensures InTouch(SenderApply(w, S.PutAll([], own)), v', rest) && v'.queue == v.queue[1..]
  {
    AckSendable(v.max);
    var r' := OneFrame(c, v, ACK, rest);
    ReadManyOne(c, v);
    var v1 := v.(r := r');
    AckAgreesIff(w, v1, own);
    v' := ReceiverApply(v1, own).(queue := v.queue[1..]);
  }

  lemma {:induction false} FrameArrives(c: Config, w: Sender, v: Receiver, f: F.Frame, rest: seq<Byte>) returns (v': Receiver)
    requires Agree(w, v) && Proper(c) && R.Sendable(f, w.max) && !f.Block? && f != ACK
    requires Positioned(v.r, R.WireOf(f) + rest)
    ensures ReadMany(c, v, 1) == Fine([Plain(R.HeadOf(f), Taken(c, f))], v')
    ensures InTouch(w, v', rest) && v'.queue == v.queue
  {
    var r' := OneFrame(c, v, f, rest);
    ReadManyOne(c, v);
    v' := v.(r := r');
  }

  ghost predicate CanSendAll(c: Config, w: Sender, items: seq<Item>)
    requires w.enc.table.size < TWO32
    decreases |items|
  {
    items == [] ||
      (CanSend(c, w, items[0]) && AfterItem(c, w, items[0]).enc.table.size < TWO32 &&
       CanSendAll(c, AfterItem(c, w, items[0]), items[1..]))
  }

  ghost function AllFrames(c: Config, w: Sender, items: seq<Item>): (fs: seq<F.Frame>)
    requires w.enc.table.size < TWO32 && CanSendAll(c, w, items)
    decreases |items|
  {
    if items == [] then [] else FramesFor(c, w, items[0]) + AllFrames(c, AfterItem(c, w, items[0]), items[1..])
  }

  ghost function AfterAll(c: Config, w: Sender, items: seq<Item>): (w': Sender)
    requires w.enc.table.size < TWO32 && CanSendAll(c, w, items)
    decreases |items|
  {
    if items == [] then w else AfterAll(c, AfterItem(c, w, items[0]), items[1..])
  }

  function EventsFor(c: Config, items: seq<Item>): (es: seq<Event>) {
    if items == [] then [] else [EventFor(c, items[0])] + EventsFor(c, items[1..])
  }

  lemma {:induction false} ItemArrives(c: Config, w: Sender, v: Receiver, it: Item, rest: seq<Byte>) returns (v': Receiver)
    requires GoodBook(c.cb) && Agree(w, v) && Proper(c) && CanSend(c, w, it) && Answered(it)
    requires it.SendAck? ==> v.queue != [] && v.queue[0] == it.own
    requires Positioned(v.r, R.WireAll(FramesFor(c, w, it)) + rest)
    ensures ReadMany(c, v, |FramesFor(c, w, it)|) == Fine([EventFor(c, it)], v')
    ensures InTouch(AfterItem(c, w, it), v', rest)
    ensures v'.queue == if it.SendAck? then v.queue[1..] else v.queue
  {
    match it
    case SendFrame(f) =>
      WireOfOne(f);
      v' := FrameArrives(c, w, v, f, rest);
    case SendHeader(_, _, _) => v' := HeaderArrives(c, w, v, it, rest);
    case SendAck(_, own) =>
      WireOfOne(ACK);
      v' := AckArrives(c, w, v, own, rest);
  }

  lemma {:induction false} WireJoined(a: seq<F.Frame>, b: seq<F.Frame>)
    ensures R.WireAll(a + b) == R.WireAll(a) + R.WireAll(b)
    decreases |a|
  {
    if a == [] {
      assert a + b == b;
      assert [] + R.WireAll(b) == R.WireAll(b);
    } else {
      assert (a + b)[1..] == a[1..] + b;
      WireJoined(a[1..], b);
      Assoc(R.WireOf(a[0]), R.WireAll(a[1..]), R.WireAll(b));
    }
  }

  lemma {:induction false} AcksTail(items: seq<Item>, queue: seq<S.Settings>)
    requires items != [] && Acks(items) <= queue
    ensures items[0].SendAck? ==> queue != [] && queue[0] == items[0].own
    ensures Acks(items[1..]) <= if items[0].SendAck? then queue[1..] else queue
  {
    if items[0].SendAck? { assert Acks(items)[1..] == Acks(items[1..]); }
  }

  lemma {:induction false} ReadOn(c: Config, v: Receiver, n: nat, k: nat, total: nat, a: seq<Event>, v1: Receiver,
                                  b: seq<Event>, v2: Receiver, all: seq<Event>)
    requires Sound(v) && c.chunk > 0 && Sound(v1) && total == n + k && all == a + b
    requires ReadMany(c, v, n) == Fine(a, v1) && ReadMany(c, v1, k) == Fine(b, v2)
    ensures ReadMany(c, v, total) == Fine(all, v2)
  {
    ReadManySplit(c, v, n, k);
  }

  /** Both ends agree, the reader is at the frames of the items and waits for their acknowledgements. */
  ghost predicate Ready(c: Config, w: Sender, v: Receiver, items: seq<Item>, rest: seq<Byte>) {
    && Agree(w, v) && CanSendAll(c, w, items) && AllAnswered(items) && Acks(items) <= v.queue
    && Positioned(v.r, R.WireAll(AllFrames(c, w, items)) + rest)
  }

  /** The reader returns the events of the items in order, and the ends agree again. */
  ghost predicate Arrived(c: Config, w: Sender, v: Receiver, items: seq<Item>, rest: seq<Byte>, v': Receiver)
    requires w.enc.table.size < TWO32 && CanSendAll(c, w, items) && Sound(v) && c.chunk > 0
  {
    && ReadMany(c, v, |AllFrames(c, w, items)|) == Fine(EventsFor(c, items), v')
    && InTouch(AfterAll(c, w, items), v', rest)
  }

  ghost predicate FirstArrived(c: Config, w: Sender, v: Receiver, items: seq<Item>, v1: Receiver)
    requires w.enc.table.size < TWO32 && items != [] && CanSendAll(c, w, items) && Sound(v) && c.chunk > 0
  {
    ReadMany(c, v, |FramesFor(c, w, items[0])|) == Fine([EventFor(c, items[0])], v1)
  }

  lemma {:induction false} FirstArrives(c: Config, w: Sender, v: Receiver, items: seq<Item>, rest: seq<Byte>)
    returns (v1: Receiver)
    requires GoodBook(c.cb) && Proper(c) && items != [] && Ready(c, w, v, items, rest)
    ensures FirstArrived(c, w, v, items, v1)
    ensures Ready(c, AfterItem(c, w, items[0]), v1, items[1..], rest)
  {
    var it, w1 := items[0], AfterItem(c, w, items[0]);
    var fs, more := FramesFor(c, w, it), AllFrames(c, w1, items[1..]);
    WireJoined(fs, more);
    Assoc(R.WireAll(fs), R.WireAll(more), rest);
    AcksTail(items, v.queue);
    assert forall i :: 0 <= i < |items[1..]| ==> items[1..][i] == items[i + 1];
    v1 := ItemArrives(c, w, v, it, R.WireAll(more) + rest);
  }

  lemma {:induction false} ItemsUnfold(c: Config, w: Sender, items: seq<Item>)
    requires items != [] && w.enc.table.size < TWO32 && CanSendAll(c, w, items)
    ensures var w1 := AfterItem(c, w, items[0]);
      && AfterAll(c, w, items) == AfterAll(c, w1, items[1..])
      && |AllFrames(c, w, items)| == |FramesFor(c, w, items[0])| + |AllFrames(c, w1, items[1..])|
      && EventsFor(c, items) == [EventFor(c, items[0])] + EventsFor(c, items[1..])
  {
  }

  lemma {:induction false} RestArrives(c: Config, w: Sender, v: Receiver, items: seq<Item>, rest: seq<Byte>, v1: Receiver, v': Receiver)
    requires items != [] && w.enc.table.size < TWO32 && CanSendAll(c, w, items) && Sound(v) && Sound(v1) && c.chunk > 0
    requires FirstArrived(c, w, v, items, v1) && Arrived(c, AfterItem(c, w, items[0]), v1, items[1..], rest, v')
    ensures Arrived(c, w, v, items, rest, v')
  {
    var it, tail, w1 := items[0], items[1..], AfterItem(c, w, items[0]);
    var fs, more := FramesFor(c, w, it), AllFrames(c, w1, tail);
    ItemsUnfold(c, w, items);
    ReadOn(c, v, |fs|, |more|, |AllFrames(c, w, items)|, [EventFor(c, it)], v1, EventsFor(c, tail), v', EventsFor(c, items));
  }

  lemma {:induction false} NothingToRead(c: Config, w: Sender, v: Receiver, rest: seq<Byte>)
    requires c.chunk > 0 && Ready(c, w, v, [], rest)
    ensures Arrived(c, w, v, [], rest, v)
  {
    assert [] + rest == rest;
  }

  /** Everything sent arrives: the reader returns the same frames, headers and acknowledgements in
      order, whatever its buffer size and however much of each content the caller reads, and the two
      ends agree again afterwards. */
  lemma {:induction false} EverythingArrives(c: Config, w: Sender, v: Receiver, items: seq<Item>, rest: seq<Byte>)
    returns (v': Receiver)
    requires GoodBook(c.cb) && Proper(c) && Ready(c, w, v, items, rest)
    ensures Arrived(c, w, v, items, rest, v')
    decreases |items|
  {
    if items == [] {
      NothingToRead(c, w, v, rest);
      v' := v;
    } else {
      var v1 := FirstArrives(c, w, v, items, rest);
      v' := EverythingArrives(c, AfterItem(c, w, items[0]), v1, items[1..], rest);
      RestArrives(c, w, v, items, rest, v1, v');
    }
  }
}
