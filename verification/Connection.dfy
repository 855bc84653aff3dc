/** A fresh connection with the code tables of RFC 7541: whatever is sent in one direction arrives. */
module Connection {
  import opened Wrappers
  import opened Bits
  import opened HeaderTable
  import opened Hpack
  import opened HpackLockstep
  import opened HpackStatic
  import opened Conversation
  import HB = HeaderBlocks
  import HM = HeaderMap
  import M = HeaderMessages
  import F = Frames
  import R = FrameReader
  import S = SettingsList

  /** The reader adds fields to headers, with any buffer size and any habit of reading contents. */
  ghost function Standard(server: bool, cb: Codebook, chunk: nat, take: R.Head -> nat): (c: Config) {
    Config(server, cb, HM.AddHandler(), chunk, take, (r: R.Reader, max: nat) => R.Next(r, max))
  }

  const TABLE_SIZE: nat := 4096
  const FRAME_SIZE: nat := 16384

  function NewSender(): (w: Sender) {
    Sender(NewEncoder(TABLE_SIZE), FRAME_SIZE, 0)
  }

  function NewReceiver(input: seq<Byte>, queue: seq<S.Settings>): (v: Receiver) {
    Receiver(R.Reader(input, 0, 0), M.State(NewDecoder(TABLE_SIZE), None), FRAME_SIZE, 0, queue)
  }

  lemma {:induction false} StartsInAgreement(input: seq<Byte>, queue: seq<S.Settings>)
    ensures InTouch(NewSender(), NewReceiver(input, queue), input)
  {
    SyncedInit(TABLE_SIZE);
    assert input[0..] == input;
  }

  /** From the first frame on, every sequence of frames, headers and acknowledgements of settings is
      read back as it was written. */
  lemma {:induction false} ConnectionArrives(server: bool, cb: Codebook, chunk: nat, take: R.Head -> nat, items: seq<Item>,
                                             queue: seq<S.Settings>, rest: seq<Byte>)
    returns (v': Receiver)
    requires cb == StandardBook() && chunk > 0 && CanSendAll(Standard(server, cb, chunk, take), NewSender(), items) && AllAnswered(items) && Acks(items) <= queue
    ensures var c, w := Standard(server, cb, chunk, take), NewSender();
      Arrived(c, w, NewReceiver(R.WireAll(AllFrames(c, w, items)) + rest, queue), items, rest, v')
  {
    var c, w := Standard(server, cb, chunk, take), NewSender();
    var input := R.WireAll(AllFrames(c, w, items)) + rest;
    StandardBookIsGood();
    StartsInAgreement(input, queue);
    v' := EverythingArrives(c, w, NewReceiver(input, queue), items, rest);
  }

  // ----- Settings through the other direction

  /** The lists in the SETTINGS frames among the frames sent. */
  function SentLists(fs: seq<F.Frame>): (lists: seq<S.Settings>) {
    if fs == [] then []
    else if fs[0].Settings? && !fs[0].ack then [fs[0].list] + SentLists(fs[1..])
    else SentLists(fs[1..])
  }

  /** The lists in the SETTINGS frames among the frames read. */
  function ReadLists(d: seq<R.Delivery>): (lists: seq<S.Settings>) {
    if d == [] then []
    else if d[0].h.Whole? && d[0].h.f.Settings? && !d[0].h.f.ack then [d[0].h.f.list] + ReadLists(d[1..])
    else ReadLists(d[1..])
  }

  predicate ReadAs(sent: seq<S.Settings>, read: seq<S.Settings>) {
    |read| == |sent| && forall k :: 0 <= k < |sent| ==> read[k] == S.PutAll([], sent[k])
  }

  lemma {:induction false} ExpectedLists(fs: seq<F.Frame>, script: seq<nat>)
    requires |fs| == |script|
    ensures ReadAs(SentLists(fs), ReadLists(R.Expected(fs, script)))
    decreases |fs|
  {
    if fs != [] {
      ExpectedLists(fs[1..], script[1..]);
      var d := R.Expected(fs, script);
      assert d[1..] == R.Expected(fs[1..], script[1..]);
      var sent, read := SentLists(fs), ReadLists(d);
      if fs[0].Settings? && !fs[0].ack {
        forall k | 0 <= k < |sent| ensures k < |read| && read[k] == S.PutAll([], sent[k]) {
          if k > 0 { assert sent[k] == SentLists(fs[1..])[k - 1]; }
        }
      }
    }
  }

  /** If the acknowledged lists are those sent, in order, and what was read of them those read, in order,
      then each was read as reading makes of it. */
  lemma {:induction false} AnsweredAsRead(items: seq<Item>, sent: seq<S.Settings>, read: seq<S.Settings>)
    requires Acks(items) <= sent && ReadsOf(items) <= read && ReadAs(sent, read)
    ensures AllAnswered(items)
    decreases |items|
  {
    if items != [] {
      var tail := items[1..];
      if items[0].SendAck? {
        assert Acks(items)[0] == items[0].own == sent[0] && ReadsOf(items)[0] == items[0].read == read[0];
        assert Acks(items)[1..] == Acks(tail) && ReadsOf(items)[1..] == ReadsOf(tail);
        assert forall k :: 0 <= k < |sent[1..]| ==> sent[1..][k] == sent[k + 1] && read[1..][k] == read[k + 1];
        AnsweredAsRead(tail, sent[1..], read[1..]);
      } else {
        AnsweredAsRead(tail, sent, read);
      }
      forall i | 0 <= i < |items| ensures Answered(items[i]) {
        if i > 0 { assert items[i] == tail[i - 1]; }
      }
    }
  }

  lemma {:induction false} SettingsAnswered(items: seq<Item>, fs: seq<F.Frame>, tail: seq<Byte>, max: nat, script: seq<nat>)
    requires |script| == |fs| && forall i :: 0 <= i < |fs| ==> R.Sendable(fs[i], max)
    requires Acks(items) <= SentLists(fs)
    requires ReadsOf(items) <= ReadLists(R.Session(Reads(), R.Reader(R.WireAll(fs) + tail, 0, 0), max, script))
    ensures AllAnswered(items)
  {
    assert [] + (R.WireAll(fs) + tail) == R.WireAll(fs) + tail;
    R.SessionReads(Reads(), fs, [], 0, 0, tail, max, script);
    ExpectedLists(fs, script);
    AnsweredAsRead(items, SentLists(fs), ReadLists(R.Expected(fs, script)));
  }

  /** Both directions: the reading end sends frames with its settings, the writing end reads them off the
      wire and acknowledges what it has read, in order. Then everything it writes arrives, and the
      settings take effect on both ends at the same place. */
  lemma {:induction false} DuplexArrives(server: bool, cb: Codebook, chunk: nat, take: R.Head -> nat, items: seq<Item>, rest: seq<Byte>,
                                         fs: seq<F.Frame>, tail: seq<Byte>, max: nat, script: seq<nat>) returns (v': Receiver)
    requires cb == StandardBook() && chunk > 0 && CanSendAll(Standard(server, cb, chunk, take), NewSender(), items)
    requires |script| == |fs| && forall i :: 0 <= i < |fs| ==> R.Sendable(fs[i], max)
    requires Acks(items) <= SentLists(fs)
    requires ReadsOf(items) <= ReadLists(R.Session(Reads(), R.Reader(R.WireAll(fs) + tail, 0, 0), max, script))
    ensures var c, w := Standard(server, cb, chunk, take), NewSender();
      Arrived(c, w, NewReceiver(R.WireAll(AllFrames(c, w, items)) + rest, SentLists(fs)), items, rest, v')
  {
    SettingsAnswered(items, fs, tail, max, script);
    v' := ConnectionArrives(server, cb, chunk, take, items, SentLists(fs), rest);
  }

  function Reads(): (next: R.Reading) {
    (r: R.Reader, max: nat) => R.Next(r, max)
  }

  // ----- Headers

  function HeaderItem(m: M.Msg, h: HM.Header, pseudo: seq<Str>, keys: seq<Str>): (it: Item)
    requires HM.Visits(h, pseudo, keys) && HM.Filled(h)
  {
    SendHeader(m, HM.GroupsOf(h, pseudo), HM.GroupsOf(h, keys))
  }

  /** Octets the header counts towards the limit on the header list. */
  ghost function ListSize(c: Config, w: Sender, h: HM.Header, pseudo: seq<Str>, keys: seq<Str>): (n: nat)
    requires w.enc.table.size < TWO32 && HM.Visits(h, pseudo, keys) && HM.Filled(h)
  {
    EncFields(c.cb, w.enc, HM.FieldsOf(h, pseudo, keys)).2
  }

  /** Valid keys with a value each, a regular one among them, and fields of uint32 size. */
  ghost predicate WellKept(h: HM.Header, pseudo: seq<Str>, keys: seq<Str>) {
    && HM.Visits(h, pseudo, keys) && HM.Filled(h) && keys != []
    && (forall i :: 0 <= i < |keys| ==> HM.ValidKey(keys[i]) && !HB.BadKey(keys[i]))
    && (forall f :: f in HM.FieldsOf(h, pseudo, keys) ==> Encodable(f))
  }

  /** Such a header can be sent in any order of its keys if and only if it keeps to the limit on the
      header list in force, if there is one; what the reader then returns is the same header. */
  lemma {:induction false} HeaderCanSend(c: Config, w: Sender, m: M.Msg, h: HM.Header, pseudo: seq<Str>, keys: seq<Str>)
    requires c.chunk > 0 && c.h == HM.AddHandler() && M.ValidMsg(m) && WellKept(h, pseudo, keys)
    requires w.enc.table.size < TWO32 && w.limit < TWO32 && 261 < w.max
    requires w.limit == 0 || ListSize(c, w, h, pseudo, keys) < TWO32
    ensures CanSend(c, w, HeaderItem(m, h, pseudo, keys)) <==> w.limit == 0 || ListSize(c, w, h, pseudo, keys) <= w.limit
    ensures EventFor(c, HeaderItem(m, h, pseudo, keys)).Message?
    ensures HM.HeaderOf(EventFor(c, HeaderItem(m, h, pseudo, keys)).fields) == h
  {
    HM.HeaderRebuilt(h, pseudo, keys);
    HeaderPasses(c, w, m, h, pseudo, keys);
  }

  lemma {:induction false} HeaderPasses(c: Config, w: Sender, m: M.Msg, h: HM.Header, pseudo: seq<Str>, keys: seq<Str>)
    requires c.chunk > 0 && c.h == HM.AddHandler() && M.ValidMsg(m) && WellKept(h, pseudo, keys)
    requires w.enc.table.size < TWO32 && w.limit < TWO32 && 261 < w.max
    requires w.limit == 0 || ListSize(c, w, h, pseudo, keys) < TWO32
    ensures CanSend(c, w, HeaderItem(m, h, pseudo, keys)) <==> w.limit == 0 || ListSize(c, w, h, pseudo, keys) <= w.limit
  {
    var o := OutgoingOf(w, HeaderItem(m, h, pseudo, keys));
    HeaderFacts(w, m, h, pseudo, keys);
    HM.HeaderAccepted(h, pseudo, keys);
    M.ArrivingIff(M.Config(c.cb, c.h, w.limit, c.chunk), w.enc, o);
  }

  lemma {:induction false} HeaderFacts(w: Sender, m: M.Msg, h: HM.Header, pseudo: seq<Str>, keys: seq<Str>)
    requires M.ValidMsg(m) && WellKept(h, pseudo, keys) && 261 < w.max
    ensures var o := OutgoingOf(w, HeaderItem(m, h, pseudo, keys));
      && M.ValidOutgoing(o) && M.Fields(o) == HM.FieldsOf(h, pseudo, keys) != []
      && HB.AllFields(o.groups) != [] && M.EndsWell(o.groups) && HB.SingleValues(o.pseudo) && M.NoBadKeys(o.groups)
  {
    var o := OutgoingOf(w, HeaderItem(m, h, pseudo, keys));
    HasFields(o.groups);
    assert o.groups[|keys| - 1].values == h[keys[|keys| - 1]];
  }

  lemma {:induction false} HasFields(groups: seq<HB.Group>)
    requires groups != [] && groups[0].values != []
    ensures HB.AllFields(groups) != []
  {
    HB.ValueFieldsLength(groups[0].key, groups[0].values);
  }
}
