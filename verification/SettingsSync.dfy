/** SETTINGS values and their acknowledged exchange (section 6.5 of RFC 7540). */
module SettingsSync {
  import opened Wrappers
  import opened SettingsList

  // ----- Applying a SETTINGS frame

  datatype Applied = Ok(s: Settings) | Refused

  predicate Known(id: nat) {
    1 <= id <= 6
  }

  /** Push is switched on in a list that describes the given role, as the code judges it: on its own
      side for a server, on the peer's side for a client. */
  predicate RefusedPush(x: Setting, local: bool, server: bool) {
    x.id == ENABLE_PUSH && x.value == 1 && local == server
  }

  function Store(cur: Settings, x: Setting): (r: Settings) {
    if Known(x.id) && ValidValue(x.id, x.value) then Put(cur, x.id, x.value) else cur
  }

  /** A change of the initial window that some window of a live stream cannot take. */
  predicate Overflows(wins: seq<int>, delta: int) {
    delta > 0 && exists i :: 0 <= i < |wins| && wins[i] > 0x7fff_ffff - delta
  }

  /** It is refused exactly if it would carry a window past 2^31-1. */
  lemma {:induction false} OverflowsIff(wins: seq<int>, delta: int)
    ensures Overflows(wins, delta) <==> delta > 0 && exists i :: 0 <= i < |wins| && Shift(wins, delta)[i] > 0x7fff_ffff
  {
    if delta > 0 {
      forall i | 0 <= i < |wins| ensures wins[i] > 0x7fff_ffff - delta <==> Shift(wins, delta)[i] > 0x7fff_ffff {}
    }
    if Overflows(wins, delta) {
      var i :| 0 <= i < |wins| && wins[i] > 0x7fff_ffff - delta;
      assert Shift(wins, delta)[i] > 0x7fff_ffff;
    }
  }

  function Shift(wins: seq<int>, delta: int): (r: seq<int>) {
    seq(|wins|, i requires 0 <= i < |wins| => wins[i] + delta)
  }

  function Change(cur: Settings, x: Setting): (delta: int) {
    if x.id == INITIAL_WINDOW_SIZE then x.value - Value(cur, INITIAL_WINDOW_SIZE) else 0
  }

  /** applySettings of the connection state that describes an endpoint with the given role; `wins` are
      the windows of its live streams. */
  function Apply(cur: Settings, wins: seq<int>, settings: Settings, local: bool, server: bool): (r: Applied)
    decreases |settings|
  {
    if settings == [] then Ok(cur)
    else if RefusedPush(settings[0], local, server) then Refused
    else if Overflows(wins, Change(cur, settings[0])) then Refused
    else Apply(Store(cur, settings[0]), Shift(wins, Change(cur, settings[0])), settings[1..], local, server)
  }

  function StoreAll(cur: Settings, settings: Settings): (r: Settings)
    decreases |settings|
  {
    if settings == [] then cur else StoreAll(Store(cur, settings[0]), settings[1..])
  }

  /** No change of the initial window on the way through the list overflows a window. */
  predicate WindowsFit(cur: Settings, wins: seq<int>, settings: Settings)
    decreases |settings|
  {
    settings == [] ||
      (!Overflows(wins, Change(cur, settings[0])) &&
       WindowsFit(Store(cur, settings[0]), Shift(wins, Change(cur, settings[0])), settings[1..]))
  }

  lemma {:induction false} EnablesPushTail(settings: Settings)
    requires settings != []
    ensures EnablesPush(settings) <==> settings[0] == Setting(ENABLE_PUSH, 1) || EnablesPush(settings[1..])
  {
    var tail := settings[1..];
    if EnablesPush(tail) {
      var i :| 0 <= i < |tail| && tail[i] == Setting(ENABLE_PUSH, 1);
      assert settings[i + 1] == Setting(ENABLE_PUSH, 1);
    }
    if EnablesPush(settings) && settings[0] != Setting(ENABLE_PUSH, 1) {
      var i :| 0 <= i < |settings| && settings[i] == Setting(ENABLE_PUSH, 1);
      assert tail[i - 1] == Setting(ENABLE_PUSH, 1);
    }
  }

  lemma {:induction false} ApplyMeaning(cur: Settings, wins: seq<int>, settings: Settings, local: bool, server: bool)
    ensures Apply(cur, wins, settings, local, server) ==
            if (EnablesPush(settings) && local == server) || !WindowsFit(cur, wins, settings) then Refused
            else Ok(StoreAll(cur, settings))
    decreases |settings|
  {
    if settings != [] {
      EnablesPushTail(settings);
      ApplyMeaning(Store(cur, settings[0]), Shift(wins, Change(cur, settings[0])), settings[1..], local, server);
    }
  }

  // ----- What is in force after a list

  /** The settings of section 6.5.2, by name. */
  predicate Named(id: nat) {
    id == HEADER_TABLE_SIZE || id == ENABLE_PUSH || id == MAX_CONCURRENT_STREAMS
    || id == INITIAL_WINDOW_SIZE || id == MAX_FRAME_SIZE || id == MAX_HEADER_LIST_SIZE
  }

  lemma {:induction false} StoredLookup(cur: Settings, list: Settings, id: nat)
    requires ValidValues(list)
    ensures forall d :: Named(id) ==> LookupOr(StoreAll(cur, list), id, d) == LastOf(list, id, LookupOr(cur, id, d))
    ensures !Named(id) ==> Lookup(StoreAll(cur, list), id) == Lookup(cur, id)
    decreases |list|
  {
    if list != [] {
      var x, tail := list[0], list[1..];
      assert ValidValue(list[0].id, list[0].value);
      assert forall i :: 0 <= i < |tail| ==> tail[i] == list[i + 1];
      LookupPut(cur, x.id, x.value, id);
      StoredLookup(Store(cur, x), tail, id);
    }
  }

  /** After a valid list each of the six settings has the last value the list gives it, or the one it had
      before if the list gives none; every other identifier is ignored. */
  lemma {:induction false} StoredValues(cur: Settings, list: Settings)
    requires ValidValues(list)
    ensures var r := StoreAll(cur, list);
      && Value(r, HEADER_TABLE_SIZE) == LastOf(list, HEADER_TABLE_SIZE, Value(cur, HEADER_TABLE_SIZE))
      && Value(r, ENABLE_PUSH) == LastOf(list, ENABLE_PUSH, Value(cur, ENABLE_PUSH))
      && Value(r, MAX_CONCURRENT_STREAMS) == LastOf(list, MAX_CONCURRENT_STREAMS, Value(cur, MAX_CONCURRENT_STREAMS))
      && Value(r, INITIAL_WINDOW_SIZE) == LastOf(list, INITIAL_WINDOW_SIZE, Value(cur, INITIAL_WINDOW_SIZE))
      && Value(r, MAX_FRAME_SIZE) == LastOf(list, MAX_FRAME_SIZE, Value(cur, MAX_FRAME_SIZE))
      && Value(r, MAX_HEADER_LIST_SIZE) == LastOf(list, MAX_HEADER_LIST_SIZE, Value(cur, MAX_HEADER_LIST_SIZE))
      && (forall id :: id == 0 || id > 6 ==> Lookup(r, id) == Lookup(cur, id))
  {
    forall id ensures Named(id) ==> Value(StoreAll(cur, list), id) == LastOf(list, id, Value(cur, id)) {
      StoredLookup(cur, list, id);
      ValueByLookup(StoreAll(cur, list), cur, id);
    }
    forall id | id == 0 || id > 6 ensures Lookup(StoreAll(cur, list), id) == Lookup(cur, id) {
      StoredLookup(cur, list, id);
    }
  }

  /** The value in force is the one looked up, with the default of section 6.5.2. */
  lemma {:induction false} ValueByLookup(s: Settings, cur: Settings, id: nat)
    ensures Value(s, id) == LookupOr(s, id, Value([], id)) && Value(cur, id) == LookupOr(cur, id, Value([], id))
  {
  }

  // ----- What the peer reads

  lemma {:induction false} StoreAllAppend(cur: Settings, a: Settings, x: Setting)
    ensures StoreAll(cur, a + [x]) == Store(StoreAll(cur, a), x)
    decreases |a|
  {
    if a == [] {
      assert a + [x] == [x] && [x][1..] == [];
    } else {
      assert (a + [x])[1..] == a[1..] + [x];
      StoreAllAppend(Store(cur, a[0]), a[1..], x);
    }
  }

  lemma {:induction false} StoreHas(cur: Settings, x: Setting, id: nat)
    requires HasId(cur, id)
    ensures HasId(Store(cur, x), id)
  {
    HasIdLookup(cur, id);
    HasIdLookup(Store(cur, x), id);
    LookupPut(cur, x.id, x.value, id);
  }

  /** Overwriting a stored value later comes to the same, if its identifier does not come again. */
  lemma {:induction false} StoreLater(cur: Settings, list: Settings, x: Setting)
    requires HasId(cur, x.id) && !HasId(list, x.id)
    ensures Store(StoreAll(cur, list), x) == StoreAll(Store(cur, x), list)
    decreases |list|
  {
    if list != [] {
      var y := list[0];
      assert y.id != x.id;
      HasIdTail(list, x.id);
      StoreHas(cur, y, x.id);
      StoreLater(Store(cur, y), list[1..], x);
      PutCommute(cur, x.id, x.value, y.id, y.value);
    }
  }

  /** Setting a value in a list of distinct identifiers and then storing the list is storing the list
      and then the value. */
  lemma {:induction false} StorePut(cur: Settings, acc: Settings, x: Setting)
    requires Distinct(acc) && ValidValues(acc) && ValidValue(x.id, x.value)
    ensures StoreAll(cur, Put(acc, x.id, x.value)) == Store(StoreAll(cur, acc), x)
    decreases |acc|
  {
    var p := Put(acc, x.id, x.value);
    if acc == [] {
      StoreAllAppend(cur, [], x);
      assert [] + [x] == [x];
    } else {
      var y, tail := acc[0], acc[1..];
      assert forall i :: 0 <= i < |tail| ==> tail[i] == acc[i + 1];
      if y.id == x.id {
        assert p[0] == x && p[1..] == tail;
        StoreOver(cur, tail, x, y);
      } else {
        assert p[0] == y && p[1..] == Put(tail, x.id, x.value);
        StorePut(Store(cur, y), tail, x);
      }
    }
  }

  lemma {:induction false} StoreOver(cur: Settings, tail: Settings, x: Setting, y: Setting)
    requires x.id == y.id && ValidValue(y.id, y.value) && ValidValue(x.id, x.value) && !HasId(tail, x.id)
    ensures StoreAll(Store(cur, x), tail) == Store(StoreAll(Store(cur, y), tail), x)
  {
    if Known(x.id) {
      PutTwice(cur, x.id, y.value, x.value);
      LookupPut(cur, y.id, y.value, y.id);
      HasIdLookup(Store(cur, y), y.id);
      StoreLater(Store(cur, y), tail, x);
    }
  }

  lemma {:induction false} PutValid(s: Settings, id: nat, value: nat)
    requires ValidValues(s) && ValidValue(id, value)
    ensures ValidValues(Put(s, id, value))
  {
    if s != [] && s[0].id != id {
      var tail := s[1..];
      assert forall i :: 0 <= i < |tail| ==> tail[i] == s[i + 1];
      PutValid(tail, id, value);
    }
  }

  lemma {:induction false} StorePutAll(cur: Settings, acc: Settings, list: Settings)
    requires Distinct(acc) && ValidValues(acc) && ValidValues(list)
    ensures StoreAll(cur, PutAll(acc, list)) == StoreAll(StoreAll(cur, acc), list)
    decreases |list|
  {
    if list != [] {
      var x, tail := list[0], list[1..];
      assert ValidValue(list[0].id, list[0].value);
      assert forall i :: 0 <= i < |tail| ==> tail[i] == list[i + 1];
      PutDistinct(acc, x.id, x.value);
      PutValid(acc, x.id, x.value);
      StorePut(cur, acc, x);
      StorePutAll(cur, Put(acc, x.id, x.value), tail);
    }
  }

  /** A list and what is read of it, with repeated identifiers overwritten, leave the same values. */
  lemma {:induction false} StoredAsRead(cur: Settings, list: Settings)
    requires ValidValues(list)
    ensures StoreAll(cur, PutAll([], list)) == StoreAll(cur, list)
  {
    StorePutAll(cur, [], list);
  }

  // ----- Acknowledgement

  /** The peer of an endpoint with role `server` reads a list value by value, which ends the connection at
      an invalid one, looks for ENABLE_PUSH if it is a client, and applies what it has read before
      acknowledging. */
  function PeerApply(cur: Settings, wins: seq<int>, settings: Settings, server: bool): (r: Applied) {
    var read := PutAll([], settings);
    if !ValidValues(settings) || (server && EnablesPush(read)) then Refused else Apply(cur, wins, read, false, server)
  }

  lemma {:induction false} NoWindowFits(cur: Settings, wins: seq<int>, list: Settings)
    requires !HasId(list, INITIAL_WINDOW_SIZE)
    ensures WindowsFit(cur, wins, list)
    decreases |list|
  {
    if list != [] {
      assert list[0].id != INITIAL_WINDOW_SIZE;
      HasIdTail(list, INITIAL_WINDOW_SIZE);
      NoWindowFits(Store(cur, list[0]), Shift(wins, 0), list[1..]);
    }
  }

  lemma {:induction false} ShiftNothing(wins: seq<int>)
    ensures Shift(wins, 0) == wins
  {
  }

  /** With each identifier once, the windows must take the one change of the initial window. */
  lemma {:induction false} WindowsFitIff(cur: Settings, wins: seq<int>, list: Settings)
    requires Distinct(list)
    ensures WindowsFit(cur, wins, list) <==>
      !Overflows(wins, LookupOr(list, INITIAL_WINDOW_SIZE, Value(cur, INITIAL_WINDOW_SIZE)) - Value(cur, INITIAL_WINDOW_SIZE))
    decreases |list|
  {
    if list != [] {
      var x, tail := list[0], list[1..];
      assert forall i :: 0 <= i < |tail| ==> tail[i] == list[i + 1];
      if x.id == INITIAL_WINDOW_SIZE {
        NoWindowFits(Store(cur, x), Shift(wins, Change(cur, x)), tail);
      } else {
        ShiftNothing(wins);
        LookupPut(cur, x.id, x.value, INITIAL_WINDOW_SIZE);
        WindowsFitIff(Store(cur, x), wins, tail);
      }
    }
  }

  /** A list is acknowledged if and only if its values are valid, what is read of it does not switch push
      on, and the windows of live streams can take its initial window; the peer then has the values
      of the list in force. */
  lemma {:induction false} AcknowledgedIff(cur: Settings, wins: seq<int>, settings: Settings, server: bool)
    ensures PeerApply(cur, wins, settings, server).Ok? <==>
      && ValidValues(settings) && !EnablesPush(PutAll([], settings))
      && !Overflows(wins, LastOf(settings, INITIAL_WINDOW_SIZE, Value(cur, INITIAL_WINDOW_SIZE)) - Value(cur, INITIAL_WINDOW_SIZE))
    ensures PeerApply(cur, wins, settings, server).Ok? ==>
      PeerApply(cur, wins, settings, server) == Ok(StoreAll(cur, settings))
  {
    var read := PutAll([], settings);
    ApplyMeaning(cur, wins, read, false, server);
    PutAllDistinct([], settings);
    WindowsFitIff(cur, wins, read);
    PutAllLast([], settings, INITIAL_WINDOW_SIZE, Value(cur, INITIAL_WINDOW_SIZE));
    if ValidValues(settings) { StoredAsRead(cur, settings); }
  }

  /** A list of one value is acknowledged exactly within the bounds of section 6.5.2: push switched off, windows
      up to 2^31-1, and frames between 2^14 and 2^24-1 octets. A named value is then in force instead of its
      default. */
  lemma {:induction false} OneValueIff(id: nat, value: nat, server: bool)
    ensures var r := PeerApply([], [], [Setting(id, value)], server);
      && (r.Ok? <==> (id == 2 ==> value == 0) && (id == 4 ==> value < 0x8000_0000) && (id == 5 ==> 16384 <= value < 0x100_0000))
      && (r.Ok? && 1 <= id <= 6 ==> Value(r.s, id) == value)
      && (r.Ok? && (id == 0 || id > 6) ==> r.s == [])
    ensures Value([], 1) == 4096 && Value([], 2) == 1 && Value([], 3) == 0x7fff_ffff && Value([], 4) == 65535
    ensures Value([], 5) == 16384 && Value([], 6) == 0
  {
    var list := [Setting(id, value)];
    assert list[0] == Setting(id, value) && list[1..] == [] && Put([], id, value) == list;
    assert PutAll([], list) == PutAll(list, []);
    assert StoreAll([], list) == StoreAll(Store([], list[0]), []);
    AcknowledgedIff([], [], list, server);
    assert ValidValues(list) <==> ValidValue(id, value);
    assert Lookup(list, id) == Some(value);
  }

  /** The sender applies its own list, not what was read of it, when the acknowledgement comes: it then has
      the same values in force as the peer, unless it is a server whose list has ENABLE_PUSH=1 or
      the list overflows one of its windows on the way. */
  lemma {:induction false} SenderApplies(cur: Settings, wins: seq<int>, peerWins: seq<int>, settings: Settings, server: bool)
    requires PeerApply(cur, peerWins, settings, server).Ok?
    ensures Apply(cur, wins, settings, true, server) == PeerApply(cur, peerWins, settings, server) <==>
      !(server && EnablesPush(settings)) && WindowsFit(cur, wins, settings)
  {
    ApplyMeaning(cur, wins, settings, true, server);
    AcknowledgedIff(cur, peerWins, settings, server);
  }

  /** An invalid value is not acknowledged. */
  lemma {:induction false} InvalidNotAcknowledged()
    ensures var list := [Setting(MAX_FRAME_SIZE, 0)];
      !EnablesPush(list) && forall server :: PeerApply([], [], list, server) == Refused
  {
    var list := [Setting(MAX_FRAME_SIZE, 0)];
    assert !ValidValue(list[0].id, list[0].value);
  }

  /** ENABLE_PUSH=1 that is overwritten in the same list is acknowledged, and then a server refuses its
      own list. */
  lemma {:induction false} OverwrittenPush()
    ensures var list := [Setting(ENABLE_PUSH, 1), Setting(ENABLE_PUSH, 0)];
      && PutAll([], list) == [Setting(ENABLE_PUSH, 0)]
      && (forall server :: PeerApply([], [], list, server).Ok?)
      && Apply([], [], list, true, true) == Refused
  {
    var on, off := Setting(ENABLE_PUSH, 1), Setting(ENABLE_PUSH, 0);
    var list := [on, off];
    assert list[1..] == [off] && [off][1..] == [] && [on][1..] == [];
    assert Put([], ENABLE_PUSH, 1) == [on] && Put([on], ENABLE_PUSH, 0) == [off];
    assert PutAll([on], [off]) == PutAll([off], []);
    assert list[0] == on;
    forall server ensures PeerApply([], [], list, server).Ok? { AcknowledgedIff([], [], list, server); }
    ApplyMeaning([], [], list, true, true);
  }

  /** A client may offer push (section 6.5.2), and applies that to itself, but its server refuses. */
  lemma {:induction false} ClientPushRefused()
    ensures var offer := [Setting(ENABLE_PUSH, 1)];
      && ValidValues(offer)
      && Apply([], [], offer, true, false).Ok?
      && PeerApply([], [], offer, false) == Refused
  {
    var offer := [Setting(ENABLE_PUSH, 1)];
    assert offer[0] == Setting(ENABLE_PUSH, 1) && offer[1..] == [];
    assert Put([], ENABLE_PUSH, 1) == offer;
    assert PutAll([], offer) == PutAll(offer, []);
    ApplyMeaning([], [], offer, true, false);
    WindowsFitIff([], [], offer);
    AcknowledgedIff([], [], offer, false);
  }

  // ----- The exchange

  /** One direction of the exchange: lists a writer has put into the channel of outstanding settings
      but not yet into the write queue, the channel, the frames under way, the acknowledgements to
      be written and the number of those under way, and the values in force on both sides. The
      histories are the lists sent, queued, acknowledged by the peer and taken as acknowledged by
      the sender, each in the order of the event. */
  datatype System = System(
    server: bool, staged: seq<Settings>, pending: seq<Settings>, frames: seq<Settings>, toAck: seq<Settings>, acks: nat,
    local: Settings, remote: Settings,
    sent: seq<Settings>, queued: seq<Settings>, acked: seq<Settings>, applied: seq<Settings>)

  datatype Action = Push(s: Settings) | Enqueue(i: nat) | ReadFrame | WriteAck | ReadAck

  /** Lists that the peer acknowledges; at others the connection ends. */
  predicate Acceptable(list: Settings) {
    ValidValues(list) && !EnablesPush(PutAll([], list))
  }

  predicate Enabled(y: System, a: Action) {
    match a
    case Push(s) => |y.pending| < 4
    case Enqueue(i) => i < |y.staged|
    case ReadFrame => y.frames != [] && Acceptable(y.frames[0])
    case WriteAck => y.toAck != []
    case ReadAck => y.acks > 0 && (y.pending == [] || !(y.server && EnablesPush(y.pending[0])))
  }

  function Without<T>(s: seq<T>, i: nat): (r: seq<T>)
    requires i < |s|
  {
    s[..i] + s[i + 1..]
  }

  /** An acknowledgement says nothing about which list it answers: the sender takes the oldest
      outstanding one, and ignores it if there is none. */
  function Next(y: System, a: Action): (y': System)
    requires Enabled(y, a)
  {
    match a
    case Push(s) => y.(staged := y.staged + [s], pending := y.pending + [s], sent := y.sent + [s])
    case Enqueue(i) =>
      y.(staged := Without(y.staged, i), frames := y.frames + [y.staged[i]], queued := y.queued + [y.staged[i]])
    case ReadFrame => y.(frames := y.frames[1..], toAck := y.toAck + [y.frames[0]])
    case WriteAck =>
      y.(toAck := y.toAck[1..], acks := y.acks + 1,
         remote := StoreAll(y.remote, PutAll([], y.toAck[0])), acked := y.acked + [y.toAck[0]])
    case ReadAck =>
      if y.pending == [] then y.(acks := y.acks - 1)
      else
        y.(acks := y.acks - 1, pending := y.pending[1..], local := StoreAll(y.local, y.pending[0]),
           applied := y.applied + [y.pending[0]])
  }

  function StoreEach(cur: Settings, lists: seq<Settings>): (r: Settings) {
    if lists == [] then cur else StoreAll(StoreEach(cur, lists[..|lists| - 1]), lists[|lists| - 1])
  }

  /** The sender works through the lists in the order sent, the peer in the order queued, and every
      list sent is queued or about to be. */
  ghost predicate Inv(init: Settings, y: System) {
    && y.sent == y.applied + y.pending && |y.pending| <= 4
    && y.queued == y.acked + y.toAck + y.frames
    && (forall i :: 0 <= i < |y.toAck| ==> ValidValues(y.toAck[i]))
    && (forall i :: 0 <= i < |y.acked| ==> ValidValues(y.acked[i]))
    && |y.acked| == |y.applied| + y.acks
    && |y.sent| == |y.queued| + |y.staged|
    && multiset(y.sent) == multiset(y.queued) + multiset(y.staged)
    && y.local == StoreEach(init, y.applied)
    && y.remote == StoreEach(init, y.acked)
  }

  lemma {:induction false} StoreEachAppend(init: Settings, lists: seq<Settings>, x: Settings)
    ensures StoreEach(init, lists + [x]) == StoreAll(StoreEach(init, lists), x)
  {
    assert (lists + [x])[..|lists|] == lists;
  }

  /** Passing the head of one part on to the end of the one before leaves the whole in order. */
  lemma {:induction false} HandOver<T>(a: seq<T>, b: seq<T>)
    requires b != []
    ensures (a + [b[0]]) + b[1..] == a + b
  {
    assert b == [b[0]] + b[1..];
  }

  lemma {:induction false} HandOverAfter<T>(a: seq<T>, b: seq<T>, c: seq<T>)
    requires c != []
    ensures a + (b + [c[0]]) + c[1..] == a + b + c
  {
    HandOver(b, c);
    Assoc(a, b, c);
    Assoc(a, b + [c[0]], c[1..]);
  }

  lemma {:induction false} WithoutSplits<T>(s: seq<T>, i: nat)
    requires i < |s|
    ensures multiset(s) == multiset(Without(s, i)) + multiset{s[i]}
  {
    assert s == s[..i] + [s[i]] + s[i + 1..];
  }

  lemma {:induction false} EnqueueKeeps(init: Settings, y: System, i: nat)
    requires Inv(init, y) && i < |y.staged|
    ensures Inv(init, Next(y, Enqueue(i)))
  {
    WithoutSplits(y.staged, i);
    Assoc(y.acked + y.toAck, y.frames, [y.staged[i]]);
  }

  lemma {:induction false} WriteAckKeeps(init: Settings, y: System)
    requires Inv(init, y) && y.toAck != []
    ensures Inv(init, Next(y, WriteAck))
  {
    HandOver(y.acked, y.toAck);
    StoredAsRead(y.remote, y.toAck[0]);
    StoreEachAppend(init, y.acked, y.toAck[0]);
  }

  /** An acknowledgement always finds an outstanding list. */
  lemma {:induction false} ReadAckKeeps(init: Settings, y: System)
    requires Inv(init, y) && Enabled(y, ReadAck)
    ensures y.pending != [] && Inv(init, Next(y, ReadAck))
  {
    assert |y.pending| >= y.acks;
    HandOver(y.applied, y.pending);
    StoreEachAppend(init, y.applied, y.pending[0]);
  }

  lemma {:induction false} StepKeeps(init: Settings, y: System, a: Action)
    requires Inv(init, y) && Enabled(y, a)
    ensures Inv(init, Next(y, a))
  {
    match a
    case Push(s) => Assoc(y.applied, y.pending, [s]);
    case Enqueue(i) => EnqueueKeeps(init, y, i);
    case ReadFrame => HandOverAfter(y.acked, y.toAck, y.frames);
    case WriteAck => WriteAckKeeps(init, y);
    case ReadAck => ReadAckKeeps(init, y);
  }

  ghost predicate IsRun(y: System, run: seq<Action>)
    decreases |run|
  {
    run == [] || (Enabled(y, run[0]) && IsRun(Next(y, run[0]), run[1..]))
  }

  ghost function After(y: System, run: seq<Action>): (y': System)
    requires IsRun(y, run)
    decreases |run|
  {
    if run == [] then y else After(Next(y, run[0]), run[1..])
  }

  function Start(init: Settings, server: bool): (y: System) {
    System(server, [], [], [], [], 0, init, init, [], [], [], [])
  }

  lemma {:induction false} RunKeeps(init: Settings, y: System, run: seq<Action>)
    requires Inv(init, y) && IsRun(y, run)
    ensures Inv(init, After(y, run))
    decreases |run|
  {
    if run != [] {
      StepKeeps(init, y, run[0]);
      RunKeeps(init, Next(y, run[0]), run[1..]);
    }
  }

  /** In every run, with any number of writers: the sender has in force the lists it sent, in that
      order, one per acknowledgement read, and the peer those that were queued, in that order, one per
      acknowledgement written; at most four are outstanding, and nothing is lost or made up. */
  lemma {:induction false} AckMeaning(init: Settings, server: bool, run: seq<Action>)
    requires IsRun(Start(init, server), run)
    ensures var y := After(Start(init, server), run);
      && |y.applied| <= |y.acked| <= |y.queued| <= |y.sent| <= |y.applied| + 4
      && y.local == StoreEach(init, y.sent[..|y.applied|])
      && y.remote == StoreEach(init, y.queued[..|y.acked|])
      && multiset(y.queued) <= multiset(y.sent)
  {
    RunKeeps(init, Start(init, server), run);
    var y := After(Start(init, server), run);
    assert y.sent[..|y.applied|] == y.applied;
    assert y.queued[..|y.acked|] == y.acked;
  }

  function Joined(lists: seq<Settings>): (r: Settings) {
    if lists == [] then [] else Joined(lists[..|lists| - 1]) + lists[|lists| - 1]
  }

  lemma {:induction false} StoreAllJoin(cur: Settings, a: Settings, b: Settings)
    ensures StoreAll(cur, a + b) == StoreAll(StoreAll(cur, a), b)
    decreases |a|
  {
    if a == [] {
      assert a + b == b;
    } else {
      assert (a + b)[1..] == a[1..] + b;
      StoreAllJoin(Store(cur, a[0]), a[1..], b);
    }
  }

  lemma {:induction false} StoreEachJoined(cur: Settings, lists: seq<Settings>)
    requires forall i :: 0 <= i < |lists| ==> ValidValues(lists[i])
    ensures StoreEach(cur, lists) == StoreAll(cur, Joined(lists)) && ValidValues(Joined(lists))
  {
    if lists != [] {
      var front, last := lists[..|lists| - 1], lists[|lists| - 1];
      StoreEachJoined(cur, front);
      StoreAllJoin(cur, Joined(front), last);
    }
  }

  lemma {:induction false} StoredValue(cur: Settings, list: Settings, id: nat)
    requires ValidValues(list)
    ensures var r := StoreAll(cur, list);
      if 1 <= id <= 6 then Value(r, id) == LastOf(list, id, Value(cur, id)) else Lookup(r, id) == Lookup(cur, id)
  {
    StoredValues(cur, list);
    assert 1 <= id <= 6 ==> Named(id);
  }

  lemma {:induction false} AckedInForce(init: Settings, y: System, id: nat)
    requires Inv(init, y)
    ensures |y.acked| <= |y.queued| && y.queued[..|y.acked|] == y.acked
    ensures var list := Joined(y.acked);
      if 1 <= id <= 6 then Value(y.remote, id) == LastOf(list, id, Value(init, id)) else Lookup(y.remote, id) == Lookup(init, id)
  {
    StoreEachJoined(init, y.acked);
    StoredValue(init, Joined(y.acked), id);
  }

  /** In every run the peer has in force, for each of the six settings, the last value given to it by the lists
      it has acknowledged, in the order in which they were queued. */
  lemma {:induction false} InForce(init: Settings, server: bool, run: seq<Action>, id: nat)
    requires IsRun(Start(init, server), run)
    ensures var y := After(Start(init, server), run);
      && |y.acked| <= |y.queued|
      && var list := Joined(y.queued[..|y.acked|]);
         if 1 <= id <= 6 then Value(y.remote, id) == LastOf(list, id, Value(init, id)) else Lookup(y.remote, id) == Lookup(init, id)
  {
    RunKeeps(init, Start(init, server), run);
    AckedInForce(init, After(Start(init, server), run), id);
  }

  /** The k-th acknowledgement is for the same list on both ends, for all that have been read, if and
      only if these lists were queued in the order in which they were sent. */
  lemma {:induction false} AgreementIff(init: Settings, server: bool, run: seq<Action>)
    requires IsRun(Start(init, server), run)
    ensures var y := After(Start(init, server), run);
      var k := |y.applied|;
      k <= |y.acked| <= |y.queued| <= |y.sent| &&
      ((forall j :: 0 <= j < k ==> y.applied[j] == y.acked[j]) <==> y.sent[..k] == y.queued[..k])
  {
    AckMeaning(init, server, run);
    RunKeeps(init, Start(init, server), run);
    var y := After(Start(init, server), run);
    var k := |y.applied|;
    assert y.sent[..k] == y.applied;
    assert y.queued[..k] == y.acked[..k];
    if y.sent[..k] == y.queued[..k] {
      forall j | 0 <= j < k ensures y.applied[j] == y.acked[j] {
        assert y.acked[j] == y.queued[..k][j];
      }
    }
  }

  // ----- Writers in order

  /** Writers pass on their lists in the order in which they registered them. */
  predicate InOrder(run: seq<Action>) {
    forall k :: 0 <= k < |run| && run[k].Enqueue? ==> run[k].i == 0
  }

  lemma {:induction false} InOrderQueues(init: Settings, y: System, run: seq<Action>)
    requires IsRun(y, run) && InOrder(run) && y.queued + y.staged == y.sent
    ensures var y' := After(y, run); y'.queued + y'.staged == y'.sent
    decreases |run|
  {
    if run != [] {
      var y1 := Next(y, run[0]);
      if run[0].Enqueue? {
        assert Without(y.staged, 0) == y.staged[1..];
        HandOver(y.queued, y.staged);
      } else if run[0].Push? {
        Assoc(y.queued, y.staged, [run[0].s]);
      }
      assert forall k :: 0 <= k < |run[1..]| ==> run[1..][k] == run[k + 1];
      InOrderQueues(init, y1, run[1..]);
    }
  }

  /** Writers in order always agree: what the sender has in force after reading k acknowledgements is
      what the peer had after writing k of them. */
  lemma {:induction false} Agreement(init: Settings, server: bool, run: seq<Action>)
    requires IsRun(Start(init, server), run) && InOrder(run)
    ensures var y := After(Start(init, server), run);
      && |y.applied| <= |y.acked| <= |y.sent| <= |y.applied| + 4
      && y.local == StoreEach(init, y.sent[..|y.applied|])
      && y.remote == StoreEach(init, y.sent[..|y.acked|])
      && (forall j :: 0 <= j < |y.applied| ==> y.applied[j] == y.acked[j])
      && (|y.applied| == |y.acked| ==> y.local == y.remote)
  {
    AckMeaning(init, server, run);
    AgreementIff(init, server, run);
    InOrderQueues(init, Start(init, server), run);
    var y := After(Start(init, server), run);
    assert y.sent[..|y.applied|] == y.queued[..|y.applied|];
    assert y.sent[..|y.acked|] == y.queued[..|y.acked|];
  }

  function CrossedRun(a: Settings, b: Settings): (run: seq<Action>) {
    [Push(a), Push(b), Enqueue(1), ReadFrame, WriteAck, ReadAck]
  }

  lemma {:induction false} CrossedOutcome(init: Settings, server: bool, a: Settings, b: Settings)
    requires !EnablesPush(a) && Acceptable(b)
    ensures IsRun(Start(init, server), CrossedRun(a, b))
    ensures var y := After(Start(init, server), CrossedRun(a, b)); y.local == StoreAll(init, a) && y.remote == StoreAll(init, b)
  {
    var run := CrossedRun(a, b);
    var y0 := Start(init, server);
    var y1 := Next(y0, run[0]);
    var y2 := Next(y1, run[1]);
    var y3 := Next(y2, run[2]);
    assert y3.frames == [b];
    var y4 := Next(y3, run[3]);
    assert y4.toAck == [b];
    StoredAsRead(init, b);
    var y5 := Next(y4, run[4]);
    var y6 := Next(y5, run[5]);
    RunOfSix(y0, run, y1, y2, y3, y4, y5, y6);
  }

  lemma {:induction false} StoreOne(x: Setting)
    requires Known(x.id) && ValidValue(x.id, x.value)
    ensures StoreAll([], [x]) == [x]
  {
    assert [x][1..] == [];
    assert StoreAll([x], []) == [x];
  }

  /** Registering and queueing are two steps, so two writers can cross; then the sender takes the
      acknowledgement of the second list for that of the first. */
  lemma {:induction false} CrossedWritersDisagree(server: bool)
    ensures var a, b := [Setting(MAX_CONCURRENT_STREAMS, 1)], [Setting(MAX_CONCURRENT_STREAMS, 2)];
      && IsRun(Start([], server), CrossedRun(a, b))
      && After(Start([], server), CrossedRun(a, b)).local == a && After(Start([], server), CrossedRun(a, b)).remote == b
  {
    var a, b := [Setting(MAX_CONCURRENT_STREAMS, 1)], [Setting(MAX_CONCURRENT_STREAMS, 2)];
    CrossedOutcome([], server, a, b);
    StoreOne(a[0]);
    StoreOne(b[0]);
  }

  lemma {:induction false} RunOfSix(y0: System, run: seq<Action>, y1: System, y2: System, y3: System, y4: System,
                                    y5: System, y6: System)
    requires |run| == 6
    requires Enabled(y0, run[0]) && Next(y0, run[0]) == y1 && Enabled(y1, run[1]) && Next(y1, run[1]) == y2
    requires Enabled(y2, run[2]) && Next(y2, run[2]) == y3 && Enabled(y3, run[3]) && Next(y3, run[3]) == y4
    requires Enabled(y4, run[4]) && Next(y4, run[4]) == y5 && Enabled(y5, run[5]) && Next(y5, run[5]) == y6
    ensures IsRun(y0, run) && After(y0, run) == y6
  {
    assert run[5..] == [run[5]] && run[5..][1..] == [];
    assert IsRun(y5, run[5..]) && After(y5, run[5..]) == y6;
    assert run[4..][1..] == run[5..];
    assert IsRun(y4, run[4..]) && After(y4, run[4..]) == y6;
    assert run[3..][1..] == run[4..];
    assert IsRun(y3, run[3..]) && After(y3, run[3..]) == y6;
    assert run[2..][1..] == run[3..];
    assert IsRun(y2, run[2..]) && After(y2, run[2..]) == y6;
    assert run[1..][1..] == run[2..];
    assert IsRun(y1, run[1..]) && After(y1, run[1..]) == y6;
  }
}
