/** The stream table of a connection: stream identifiers, the map of live streams, the counters of
    active ones, and GOAWAY, as interleaved atomic steps of writers and of the one reader. */
module StreamTable {
  import opened Wrappers
  import opened StreamState

  predicate Active(s: State) {
    s == State.Open || s == HalfClosedLocal || s == HalfClosedRemote
  }

  /** validStreamID of the side with the given role: servers use even identifiers, clients odd ones. */
  predicate ValidId(server: bool, id: nat) {
    id > 0 && server == (id % 2 == 0)
  }

  /** The identifiers used by one side, the next one allowed and the count of active streams. */
  datatype Side = Side(next: nat, num: int, ids: seq<nat>)

  /** streams holds the state of every stream object ever made, table the identifiers in the map,
      closes how often the effects of closing ran. */
  datatype Conn = Conn(
    server: bool, local: Side, remote: Side, streams: map<nat, State>, table: set<nat>, closes: map<nat, nat>,
    goAwayReceived: bool, goAwaySent: seq<nat>, jobs: seq<Job>, reader: Reader)

  /** A GOAWAY being sent: stored, then the streams to close collected, then closed one by one. */
  datatype Job = Job(last: nat, collected: bool, targets: set<nat>)

  /** The reader with a HEADERS frame: none, past the check against a sent GOAWAY, stream made. */
  datatype Reader = Ready | Checked(id: nat) | Made(id: nat)

  function NewConn(server: bool): (c: Conn) {
    var l, r := if server then 2 else 1, if server then 1 else 2;
    Conn(server, Side(l, 0, []), Side(r, 0, []), map[], {}, map[], false, [], [], Ready)
  }

  // ----- Identifiers

  datatype IdError = GoAwayReceived | BadId | ClosedStream | TooMany

  /** idleStream of one side: its role, and the limit on concurrent streams in force. */
  function IdleError(c: Conn, side: Side, role: bool, id: nat, limit: int): (e: Option<IdError>) {
    if c.goAwayReceived then Some(GoAwayReceived)
    else if !ValidId(role, id) then Some(BadId)
    else if id < side.next then Some(ClosedStream)
    else if side.num + 1 > limit then Some(TooMany)
    else None
  }

  /** An identifier is taken if and only if no GOAWAY was received, it has the parity of its side, it is above all
      that the side has used, and one more stream is within the limit. */
  lemma {:induction false} IdAcceptedIff(c: Conn, side: Side, role: bool, id: nat, limit: int)
    requires IdsOk(side, role)
    ensures IdleError(c, side, role, id, limit) == None <==>
      && !c.goAwayReceived && id % 2 == (if role then 0 else 1) && id > 0
      && (forall i :: 0 <= i < |side.ids| ==> id > side.ids[i]) && side.num < limit
  {
    if side.ids != [] {
      assert ValidId(role, side.ids[|side.ids| - 1]);
      assert ValidId(role, id) && id > side.ids[|side.ids| - 1] ==> id >= side.next;
    }
  }

  function Claim(side: Side, id: nat): (s: Side) {
    side.(next := id + 2, ids := side.ids + [id])
  }

  /** A received PUSH_PROMISE is looked up with the local role, so every identifier its sender may
      use is refused. */
  lemma {:induction false} PromisesRefused(c: Conn, id: nat, limit: int)
    requires ValidId(!c.server, id)
    ensures IdleError(c, c.local, c.server, id, limit).Some?
  {
  }

  // ----- State changes

  function Local(c: Conn, id: nat): (b: bool) {
    c.server == (id % 2 == 0)
  }

  /** What a change of state adds to the count of active streams of its side. */
  function CountChange(from: State, to: State): (n: int) {
    if Active(to) && (from == Idle || Reserved(from)) then 1
    else if to == Closed && Active(from) then -1
    else 0
  }

  function TableAfter(table: set<nat>, id: nat, from: State, to: State): (t: set<nat>) {
    if (Reserved(to) || Active(to)) && from == Idle then table + {id}
    else if to == Closed && from != Closed then table - {id}
    else table
  }

  function Closes(closes: map<nat, nat>, id: nat): (n: nat) {
    if id in closes then closes[id] else 0
  }

  function Bump(side: Side, here: bool, n: int): (s: Side) {
    if here then side.(num := side.num + n) else side
  }

  /** compareAndSwapState with its effects. */
  function Swap(c: Conn, id: nat, to: State): (c': Conn)
    requires id in c.streams
  {
    var from := c.streams[id];
    c.(streams := c.streams[id := to],
       table := TableAfter(c.table, id, from, to),
       closes := if to == Closed && from != Closed then c.closes[id := Closes(c.closes, id) + 1] else c.closes,
       local := Bump(c.local, Local(c, id), CountChange(from, to)),
       remote := Bump(c.remote, !Local(c, id), CountChange(from, to)))
  }

  datatype Action =
    | OpenLocal(id: nat, limit: int, frame: FrameType)
    | Change(id: nat, recv: bool, frame: FrameType, endStream: bool)
    | Close(id: nat)
    | ReadHeaders(id: nat)
    | MakeRemote(limit: int)
    | FinishRead(endStream: bool)
    | DropFrame(limit: int)
    | ReceivePromise(parent: nat, id: nat, push: bool, limit: int)
    | StoreGoAway(last: nat)
    | Collect(j: nat)
    | CloseTarget(j: nat, id: nat)
    | FinishJob(j: nat)
    | ReceiveGoAway

  predicate Beyond(c: Conn, id: nat) {
    ValidId(!c.server, id) && c.goAwaySent != [] && id > c.goAwaySent[|c.goAwaySent| - 1]
  }

  predicate Enabled(c: Conn, a: Action) {
    match a
    case OpenLocal(id, limit, frame) =>
      && id !in c.table && IdleError(c, c.local, c.server, id, limit) == None
      && (frame == Headers || frame == PushPromise)
    case Change(id, recv, frame, endStream) =>
      && id in c.table && id in c.streams
      && Transition(c.streams[id], recv, frame, endStream).ok
    case Close(id) => id in c.table && id in c.streams
    case ReadHeaders(id) => c.reader == Ready && !Beyond(c, id)
    case MakeRemote(limit) =>
      && c.reader.Checked? && c.reader.id !in c.table
      && IdleError(c, c.remote, !c.server, c.reader.id, limit) == None
    case FinishRead(endStream) => c.reader.Made? && c.reader.id in c.streams && c.streams[c.reader.id] == Idle
    case DropFrame(limit) =>
      c.reader.Checked? && (c.reader.id in c.table || IdleError(c, c.remote, !c.server, c.reader.id, limit).Some?)
    case ReceivePromise(parent, id, push, limit) =>
      && c.reader == Ready && !Beyond(c, parent)
      && parent in c.table && parent in c.streams && Receives(c.streams[parent])
      && push && IdleError(c, c.local, c.server, id, limit) == None
    case StoreGoAway(last) => c.goAwaySent != [] ==> last <= c.goAwaySent[|c.goAwaySent| - 1]
    case Collect(j) => j < |c.jobs| && !c.jobs[j].collected
    case CloseTarget(j, id) => j < |c.jobs| && c.jobs[j].collected && id in c.jobs[j].targets && id in c.streams
    case FinishJob(j) => j < |c.jobs| && c.jobs[j].collected && c.jobs[j].targets == {}
    case ReceiveGoAway => true
  }

  /** The streams of a side above the last identifier of a GOAWAY. */
  function Excluded(table: set<nat>, role: bool, last: nat): (r: set<nat>) {
    set id | id in table && id > last && ValidId(role, id)
  }

  function Next(c: Conn, a: Action): (c': Conn)
    requires Enabled(c, a)
  {
    match a
    case OpenLocal(id, limit, frame) =>
      var c1 := c.(local := Claim(c.local, id), streams := c.streams[id := Idle]);
      Swap(c1, id, Transition(Idle, false, frame, false).to)
    case Change(id, recv, frame, endStream) => Swap(c, id, Transition(c.streams[id], recv, frame, endStream).to)
    case Close(id) => Swap(c, id, Closed)
    case ReadHeaders(id) => c.(reader := Checked(id))
    case MakeRemote(limit) =>
      c.(remote := Claim(c.remote, c.reader.id), streams := c.streams[c.reader.id := Idle], reader := Made(c.reader.id))
    case FinishRead(endStream) =>
      Swap(c, c.reader.id, Transition(Idle, true, Headers, endStream).to).(reader := Ready)
    case DropFrame(_) => c.(reader := Ready)
    case ReceivePromise(_, id, _, _) =>
      var c1 := c.(local := Claim(c.local, id), streams := c.streams[id := Idle]);
      Swap(c1, id, Transition(Idle, true, PushPromise, false).to)
    case StoreGoAway(last) => c.(goAwaySent := c.goAwaySent + [last], jobs := c.jobs + [Job(last, false, {})])
    case Collect(j) =>
      c.(jobs := c.jobs[j := Job(c.jobs[j].last, true, Excluded(c.table, !c.server, c.jobs[j].last))])
    case CloseTarget(j, id) =>
      Swap(c, id, Closed).(jobs := c.jobs[j := c.jobs[j].(targets := c.jobs[j].targets - {id})])
    case FinishJob(j) => c.(jobs := c.jobs[..j] + c.jobs[j + 1..])
    case ReceiveGoAway => c.(goAwayReceived := true)
  }

  // ----- Invariant

  function ActiveIds(c: Conn, local: bool): (r: set<nat>) {
    set id | id in c.streams && Active(c.streams[id]) && Local(c, id) == local
  }

  predicate IdsOk(side: Side, role: bool) {
    && (forall i :: 0 <= i < |side.ids| ==> ValidId(role, side.ids[i]) && side.ids[i] < side.next)
    && (forall i, j :: 0 <= i < j < |side.ids| ==> side.ids[i] < side.ids[j])
    && side.next == if side.ids == [] then (if role then 2 else 1) else side.ids[|side.ids| - 1] + 2
  }

  ghost predicate TableOk(c: Conn) {
    forall id :: id in c.table <==> id in c.streams && (Reserved(c.streams[id]) || Active(c.streams[id]))
  }

  ghost predicate CountsOk(c: Conn) {
    c.local.num == |ActiveIds(c, true)| && c.remote.num == |ActiveIds(c, false)|
  }

  ghost predicate ClosesOk(c: Conn) {
    && (forall id :: id in c.streams ==> Closes(c.closes, id) == if c.streams[id] == Closed then 1 else 0)
    && (forall id :: id in c.closes ==> id in c.streams)
  }

  ghost predicate BoundsOk(c: Conn) {
    forall id :: id in c.streams ==> if Local(c, id) then id < c.local.next else id < c.remote.next
  }

  predicate Targeted(c: Conn, id: nat) {
    exists j :: 0 <= j < |c.jobs| && id in c.jobs[j].targets
  }

  /** What a GOAWAY is about to close exists and has left the idle state. */
  ghost predicate TargetsOk(c: Conn) {
    forall id :: Targeted(c, id) ==> id in c.streams && c.streams[id] != Idle
  }

  /** A GOAWAY whose streams are still to be collected excludes no more than the last one sent. */
  predicate JobsOk(c: Conn) {
    forall j :: 0 <= j < |c.jobs| && !c.jobs[j].collected ==>
      c.goAwaySent != [] && c.jobs[j].last >= c.goAwaySent[|c.goAwaySent| - 1]
  }

  predicate ReaderOk(c: Conn, r: Reader) {
    r.Made? ==> r.id in c.streams && c.streams[r.id] == Idle && ValidId(!c.server, r.id)
  }

  /** The map holds exactly the reserved and active streams, the counters count exactly the active
      ones, each closed stream ran its closing effects once, identifiers ascend with the parity of
      their side, and the last identifiers of sent GOAWAYs do not. */
  ghost predicate Inv(c: Conn) {
    && TableOk(c) && CountsOk(c) && ClosesOk(c) && BoundsOk(c) && TargetsOk(c) && JobsOk(c)
    && IdsOk(c.local, c.server) && IdsOk(c.remote, !c.server)
    && (forall i, j :: 0 <= i < j < |c.goAwaySent| ==> c.goAwaySent[j] <= c.goAwaySent[i])
    && ReaderOk(c, c.reader)
  }

  lemma {:induction false} ActiveElsewhere(c: Conn, c': Conn, id: nat, to: State, local: bool)
    requires c'.streams == c.streams[id := to] && c'.server == c.server && Local(c, id) != local
    ensures ActiveIds(c', local) == ActiveIds(c, local)
  {
  }

  lemma {:induction false} ActiveHere(c: Conn, c': Conn, id: nat, to: State)
    requires c'.streams == c.streams[id := to] && c'.server == c.server
    ensures var local := Local(c, id);
      ActiveIds(c', local) == if Active(to) then ActiveIds(c, local) + {id} else ActiveIds(c, local) - {id}
  {
  }

  lemma {:induction false} ActiveUpdate(c: Conn, c': Conn, id: nat, to: State)
    requires c'.streams == c.streams[id := to] && c'.server == c.server
    ensures var local := Local(c, id);
      && |ActiveIds(c', !local)| == |ActiveIds(c, !local)|
      && |ActiveIds(c', local)| == |ActiveIds(c, local)| +
         (if Active(to) then 1 else 0) - (if id in c.streams && Active(c.streams[id]) then 1 else 0)
  {
    var local := Local(c, id);
    ActiveElsewhere(c, c', id, to, !local);
    ActiveHere(c, c', id, to);
    OneMoreOrLess(ActiveIds(c, local), id);
    assert id in ActiveIds(c, local) <==> id in c.streams && Active(c.streams[id]);
  }

  lemma {:induction false} OneMoreOrLess(s: set<nat>, x: nat)
    ensures |s + {x}| == |s| + if x in s then 0 else 1
    ensures |s - {x}| == |s| - if x in s then 1 else 0
  {
    if x in s {
      assert s + {x} == s && s == (s - {x}) + {x};
    } else {
      assert s - {x} == s;
    }
  }

  /** Forward moves, and closing of what is no longer idle. */
  predicate Moves(c: Conn, id: nat, to: State) {
    && id in c.streams && (to == c.streams[id] || Rank(to) > Rank(c.streams[id]))
    && (c.streams[id] == Idle ==> to != Closed)
  }

  lemma {:induction false} SwapCounts(c: Conn, id: nat, to: State)
    requires CountsOk(c) && Moves(c, id, to)
    ensures CountsOk(Swap(c, id, to))
  {
    ActiveUpdate(c, Swap(c, id, to), id, to);
  }

  lemma {:induction false} SwapTableOk(c: Conn, id: nat, to: State)
    requires TableOk(c) && Moves(c, id, to)
    ensures TableOk(Swap(c, id, to))
  {
  }

  lemma {:induction false} SwapCloses(c: Conn, id: nat, to: State)
    requires ClosesOk(c) && Moves(c, id, to)
    ensures ClosesOk(Swap(c, id, to))
  {
    var c' := Swap(c, id, to);
    forall x | x in c'.streams ensures Closes(c'.closes, x) == if c'.streams[x] == Closed then 1 else 0 {
      assert Closes(c.closes, x) == if c.streams[x] == Closed then 1 else 0;
    }
  }

  lemma {:induction false} SwapFrame(c: Conn, id: nat, to: State)
    requires id in c.streams
    ensures var c' := Swap(c, id, to);
      && c'.streams == c.streams[id := to] && c'.server == c.server && c'.jobs == c.jobs && c'.reader == c.reader
      && c'.goAwaySent == c.goAwaySent
      && c'.local.next == c.local.next && c'.local.ids == c.local.ids
      && c'.remote.next == c.remote.next && c'.remote.ids == c.remote.ids
  {
  }

  /** A change of state that goes forward keeps all accounts; the counters never go below zero. */
  lemma {:induction false} SwapKeeps(c: Conn, id: nat, to: State)
    requires Inv(c) && Moves(c, id, to) && (c.reader.Made? ==> id != c.reader.id)
    ensures Inv(Swap(c, id, to))
    ensures Swap(c, id, to).local.num >= 0 && Swap(c, id, to).remote.num >= 0
  {
    SwapCounts(c, id, to);
    SwapTableOk(c, id, to);
    SwapCloses(c, id, to);
    SwapRest(c, Swap(c, id, to), id, to);
  }

  lemma {:induction false} SwapRest(c: Conn, c': Conn, id: nat, to: State)
    requires Moves(c, id, to) && c' == Swap(c, id, to)
    requires TargetsOk(c) && BoundsOk(c) && IdsOk(c.local, c.server) && IdsOk(c.remote, !c.server)
    ensures TargetsOk(c') && BoundsOk(c') && IdsOk(c'.local, c'.server) && IdsOk(c'.remote, !c'.server)
    ensures c'.goAwaySent == c.goAwaySent && c'.reader == c.reader && c'.server == c.server && c'.jobs == c.jobs
    ensures forall x :: x in c.streams ==> x in c'.streams && (x != id ==> c'.streams[x] == c.streams[x])
  {
    SwapFrame(c, id, to);
    forall x | Targeted(c', x) ensures x in c'.streams && c'.streams[x] != Idle {
      assert Targeted(c, x);
    }
    forall x | x in c'.streams ensures if Local(c', x) then x < c'.local.next else x < c'.remote.next {
      assert x in c.streams;
      assert Local(c', x) == Local(c, x);
    }
  }

  /** A new identifier is larger than all before it and names no stream yet. */
  lemma {:induction false} ClaimKeeps(c: Conn, id: nat, limit: int, local: bool)
    requires Inv(c)
    requires if local then IdleError(c, c.local, c.server, id, limit) == None
             else IdleError(c, c.remote, !c.server, id, limit) == None
    ensures id !in c.streams
    ensures var c1 := if local then c.(local := Claim(c.local, id)) else c.(remote := Claim(c.remote, id));
      Inv(c1.(streams := c.streams[id := Idle]))
  {
    var c1 := if local then c.(local := Claim(c.local, id)) else c.(remote := Claim(c.remote, id));
    var c2 := c1.(streams := c.streams[id := Idle]);
    assert Local(c, id) == local;
    ActiveUpdate(c, c2, id, Idle);
    IdleAdded(c, c2, id);
  }

  /** An idle stream that is new changes neither the table nor what was closed or is to be closed. */
  lemma {:induction false} IdleAdded(c: Conn, c2: Conn, id: nat)
    requires TableOk(c) && ClosesOk(c) && TargetsOk(c) && id !in c.streams
    requires c2.streams == c.streams[id := Idle] && c2.table == c.table && c2.closes == c.closes && c2.jobs == c.jobs
    ensures TableOk(c2) && ClosesOk(c2) && TargetsOk(c2)
  {
    forall x | Targeted(c2, x) ensures x in c2.streams && c2.streams[x] != Idle {
      assert Targeted(c, x);
    }
    forall x | x in c2.streams ensures Closes(c2.closes, x) == if c2.streams[x] == Closed then 1 else 0 {
      assert Closes(c2.closes, x) == Closes(c.closes, x);
    }
  }

  lemma {:induction false} OpenLocalKeeps(c: Conn, a: Action)
    requires Inv(c) && Enabled(c, a) && a.OpenLocal?
    ensures Inv(Next(c, a))
  {
    ClaimKeeps(c, a.id, a.limit, true);
    var c2 := c.(local := Claim(c.local, a.id)).(streams := c.streams[a.id := Idle]);
    SwapKeeps(c2, a.id, Transition(Idle, false, a.frame, false).to);
  }

  lemma {:induction false} PromiseKeeps(c: Conn, a: Action)
    requires Inv(c) && Enabled(c, a) && a.ReceivePromise?
    ensures Inv(Next(c, a))
  {
    ClaimKeeps(c, a.id, a.limit, true);
    var c2 := c.(local := Claim(c.local, a.id)).(streams := c.streams[a.id := Idle]);
    SwapKeeps(c2, a.id, Transition(Idle, true, PushPromise, false).to);
  }

  lemma {:induction false} MakeRemoteKeeps(c: Conn, limit: int)
    requires Inv(c) && Enabled(c, MakeRemote(limit))
    ensures Inv(Next(c, MakeRemote(limit)))
  {
    ClaimKeeps(c, c.reader.id, limit, false);
    var c2 := c.(remote := Claim(c.remote, c.reader.id)).(streams := c.streams[c.reader.id := Idle]);
    ReaderMoves(c2, Made(c.reader.id));
  }

  lemma {:induction false} ReaderMoves(c: Conn, r: Reader)
    requires Inv(c) && ReaderOk(c, r)
    ensures Inv(c.(reader := r))
  {
    var c' := c.(reader := r);
    forall x | Targeted(c', x) ensures Targeted(c, x) {
    }
    assert ClosesOk(c') by {
      forall x | x in c'.streams ensures Closes(c'.closes, x) == Closes(c.closes, x) {
      }
    }
    assert ActiveIds(c', true) == ActiveIds(c, true) && ActiveIds(c', false) == ActiveIds(c, false);
  }

  lemma {:induction false} FinishReadKeeps(c: Conn, endStream: bool)
    requires Inv(c) && Enabled(c, FinishRead(endStream))
    ensures Inv(Next(c, FinishRead(endStream)))
  {
    var to := Transition(Idle, true, Headers, endStream).to;
    ReaderMoves(c, Ready);
    SwapKeeps(c.(reader := Ready), c.reader.id, to);
  }

  lemma {:induction false} JobsMove(c: Conn, sent: seq<nat>, jobs: seq<Job>, received: bool)
    requires Inv(c) && (forall i, j :: 0 <= i < j < |sent| ==> sent[j] <= sent[i])
    requires forall j, id :: 0 <= j < |jobs| && id in jobs[j].targets ==> id in c.streams && c.streams[id] != Idle
    requires JobsOk(c.(goAwaySent := sent, jobs := jobs, goAwayReceived := received))
    ensures Inv(c.(goAwaySent := sent, jobs := jobs, goAwayReceived := received))
  {
    var c' := c.(goAwaySent := sent, jobs := jobs, goAwayReceived := received);
    assert ActiveIds(c', true) == ActiveIds(c, true) && ActiveIds(c', false) == ActiveIds(c, false);
    assert ClosesOk(c') by {
      forall x | x in c'.streams ensures Closes(c'.closes, x) == Closes(c.closes, x) {
      }
    }
  }

  /** The jobs after a step target only what was targeted before or is in the table. */
  lemma {:induction false} JobTargets(c: Conn, jobs: seq<Job>)
    requires Inv(c)
    requires forall j, id :: 0 <= j < |jobs| && id in jobs[j].targets ==> id in c.table || Targeted(c, id)
    ensures forall j, id :: 0 <= j < |jobs| && id in jobs[j].targets ==> id in c.streams && c.streams[id] != Idle
  {
  }

  lemma {:induction false} JobStepKeeps(c: Conn, a: Action)
    requires Inv(c) && Enabled(c, a) && (a.StoreGoAway? || a.Collect? || a.FinishJob? || a.ReceiveGoAway?)
    ensures Inv(Next(c, a))
  {
    var c' := Next(c, a);
    forall j, id | 0 <= j < |c'.jobs| && id in c'.jobs[j].targets ensures id in c.table || Targeted(c, id) {
      if a.FinishJob? {
        assert c'.jobs[j] == c.jobs[if j < a.j then j else j + 1];
      }
    }
    JobTargets(c, c'.jobs);
    JobsMove(c, c'.goAwaySent, c'.jobs, c'.goAwayReceived);
  }

  lemma {:induction false} StepKeeps(c: Conn, a: Action)
    requires Inv(c) && Enabled(c, a)
    ensures Inv(Next(c, a))
  {
    match a
    case OpenLocal(_, _, _) => OpenLocalKeeps(c, a);
    case Change(id, recv, frame, endStream) =>
      Forward(c.streams[id], recv, frame, endStream);
      SwapKeeps(c, id, Transition(c.streams[id], recv, frame, endStream).to);
    case Close(id) => SwapKeeps(c, id, Closed);
    case ReadHeaders(id) => ReaderMoves(c, Checked(id));
    case MakeRemote(limit) => MakeRemoteKeeps(c, limit);
    case FinishRead(endStream) => FinishReadKeeps(c, endStream);
    case DropFrame(_) => ReaderMoves(c, Ready);
    case ReceivePromise(_, _, _, _) => PromiseKeeps(c, a);
    case StoreGoAway(_) => JobStepKeeps(c, a);
    case Collect(_) => JobStepKeeps(c, a);
    case CloseTarget(j, id) => CloseTargetKeeps(c, j, id);
    case FinishJob(_) => JobStepKeeps(c, a);
    case ReceiveGoAway => JobStepKeeps(c, a);
  }

  lemma {:induction false} CloseTargetKeeps(c: Conn, j: nat, id: nat)
    requires Inv(c) && Enabled(c, CloseTarget(j, id))
    ensures Inv(Next(c, CloseTarget(j, id)))
  {
    assert Targeted(c, id);
    SwapKeeps(c, id, Closed);
    SwapFrame(c, id, Closed);
    TargetDone(Swap(c, id, Closed), j, id);
  }

  lemma {:induction false} TargetDone(c: Conn, j: nat, id: nat)
    requires Inv(c) && j < |c.jobs| && c.jobs[j].collected
    ensures Inv(c.(jobs := c.jobs[j := c.jobs[j].(targets := c.jobs[j].targets - {id})]))
  {
    var jobs := c.jobs[j := c.jobs[j].(targets := c.jobs[j].targets - {id})];
    forall k, x | 0 <= k < |jobs| && x in jobs[k].targets ensures x in c.table || Targeted(c, x) {
      assert x in c.jobs[k].targets;
    }
    JobTargets(c, jobs);
    JobsMove(c, c.goAwaySent, jobs, c.goAwayReceived);
  }

  // ----- Promises

  /** A received PUSH_PROMISE is accepted if and only if push is enabled, its stream is readable, there is room,
      no GOAWAY came, and the promised identifier is one the receiver itself could use next: of its own
      parity, and above all it has used. */
  lemma {:induction false} PromiseAcceptedIff(c: Conn, parent: nat, id: nat, push: bool, limit: int)
    requires Inv(c) && c.reader == Ready && !Beyond(c, parent)
    ensures Enabled(c, ReceivePromise(parent, id, push, limit)) <==>
      && push && parent in c.table && Receives(c.streams[parent]) && !c.goAwayReceived && c.local.num < limit
      && ValidId(c.server, id) && forall i :: 0 <= i < |c.local.ids| ==> c.local.ids[i] < id
  {
    var n := |c.local.ids|;
    if ValidId(c.server, id) && n > 0 {
      assert ValidId(c.server, c.local.ids[n - 1]);
      assert c.local.ids[n - 1] < id ==> c.local.ids[n - 1] + 2 <= id;
    }
  }

  /** So the peer can promise, and thereby take, the next identifier of the receiver. */
  lemma {:induction false} OwnIdentifierPromised(c: Conn, parent: nat)
    requires Inv(c) && c.reader == Ready && !Beyond(c, parent) && !c.goAwayReceived
    requires parent in c.table && Receives(c.streams[parent])
    ensures var id := c.local.next;
      var a := ReceivePromise(parent, id, true, c.local.num + 1);
      && Enabled(c, a) && id in Next(c, a).table && Next(c, a).streams[id] == ReservedRemote
      && Next(c, a).local.next == id + 2
  {
    var n := |c.local.ids|;
    if n > 0 { assert ValidId(c.server, c.local.ids[n - 1]); }
    PromiseAcceptedIff(c, parent, c.local.next, true, c.local.num + 1);
  }

  // ----- GOAWAY

  predicate Covers(j: Job, id: nat) {
    if j.collected then id in j.targets else id > j.last
  }

  predicate Covered(c: Conn, id: nat) {
    exists j :: 0 <= j < |c.jobs| && Covers(c.jobs[j], id)
  }

  /** Streams above the last identifier of a sent GOAWAY are about to be closed, and the reader is
      not about to add one. */
  ghost predicate Guarded(c: Conn) {
    && (forall id :: id in c.table && Beyond(c, id) ==> Covered(c, id))
    && (c.reader != Ready ==> !Beyond(c, c.reader.id))
  }

  /** The GOAWAY is not stored while the reader holds a frame for a stream it excludes. */
  predicate Calm(c: Conn, a: Action) {
    a.StoreGoAway? && c.reader != Ready ==> !(ValidId(!c.server, c.reader.id) && c.reader.id > a.last)
  }

  lemma {:induction false} SwapTable(c: Conn, id: nat, to: State)
    requires id in c.streams
    ensures var c' := Swap(c, id, to);
      && c'.table <= c.table + {id} && (to == Closed && c.streams[id] != Closed ==> id !in c'.table)
      && c'.jobs == c.jobs && c'.goAwaySent == c.goAwaySent && c'.server == c.server && c'.reader == c.reader
  {
  }

  /** Nothing but a closing job's own progress takes a stream out of its care. */
  lemma {:induction false} GuardStays(c: Conn, c': Conn)
    requires Guarded(c) && c'.goAwaySent == c.goAwaySent && c'.server == c.server
    requires forall id :: id in c'.table && Beyond(c, id) ==> id in c.table
    requires c'.reader == c.reader || (c'.reader != Ready ==> !Beyond(c, c'.reader.id))
    requires forall id :: id in c'.table && Covered(c, id) ==> Covered(c', id)
    ensures Guarded(c')
  {
  }

  lemma {:induction false} LocalNotBeyond(c: Conn, id: nat)
    requires ValidId(c.server, id)
    ensures !Beyond(c, id)
  {
  }

  lemma {:induction false} GuardSwaps(c: Conn, a: Action)
    requires Inv(c) && Guarded(c) && Enabled(c, a) && (a.OpenLocal? || a.Change? || a.Close? || a.FinishRead? || a.ReceivePromise?)
    ensures Guarded(Next(c, a))
    ensures forall id :: id in Next(c, a).table && id !in c.table ==> !Beyond(Next(c, a), id)
  {
    var c' := Next(c, a);
    match a
    case OpenLocal(id, limit, frame) =>
      SwapTable(c.(local := Claim(c.local, id), streams := c.streams[id := Idle]), id, Transition(Idle, false, frame, false).to);
      LocalNotBeyond(c, id);
      GuardStays(c, c');
    case ReceivePromise(_, id, _, limit) =>
      SwapTable(c.(local := Claim(c.local, id), streams := c.streams[id := Idle]), id, Transition(Idle, true, PushPromise, false).to);
      LocalNotBeyond(c, id);
      GuardStays(c, c');
    case Change(id, recv, frame, endStream) =>
      SwapTable(c, id, Transition(c.streams[id], recv, frame, endStream).to);
      GuardStays(c, c');
    case Close(id) =>
      SwapTable(c, id, Closed);
      GuardStays(c, c');
    case FinishRead(endStream) =>
      SwapTable(c, c.reader.id, Transition(Idle, true, Headers, endStream).to);
      GuardStays(c, c');
  }

  lemma {:induction false} GuardKeeps(c: Conn, a: Action)
    requires Inv(c) && Guarded(c) && Enabled(c, a) && Calm(c, a)
    ensures Guarded(Next(c, a))
    ensures forall id :: id in Next(c, a).table && id !in c.table ==> !Beyond(Next(c, a), id)
  {
    match a
    case OpenLocal(_, _, _) => GuardSwaps(c, a);
    case Change(_, _, _, _) => GuardSwaps(c, a);
    case Close(_) => GuardSwaps(c, a);
    case ReadHeaders(_) => GuardStays(c, Next(c, a));
    case MakeRemote(_) => GuardStays(c, Next(c, a));
    case FinishRead(_) => GuardSwaps(c, a);
    case DropFrame(_) => GuardStays(c, Next(c, a));
    case ReceivePromise(_, _, _, _) => GuardSwaps(c, a);
    case StoreGoAway(last) => StoreGuards(c, last);
    case Collect(j) => CollectGuards(c, j);
    case CloseTarget(j, id) => CloseTargetGuards(c, j, id);
    case FinishJob(j) => FinishJobGuards(c, j);
    case ReceiveGoAway => GuardStays(c, Next(c, a));
  }

  lemma {:induction false} StoreGuards(c: Conn, last: nat)
    requires Guarded(c) && Enabled(c, StoreGoAway(last)) && Calm(c, StoreGoAway(last))
    ensures Guarded(Next(c, StoreGoAway(last)))
  {
    var c' := Next(c, StoreGoAway(last));
    forall id | id in c'.table && Beyond(c', id) ensures Covered(c', id) {
      assert Covers(c'.jobs[|c.jobs|], id);
    }
  }

  lemma {:induction false} CollectGuards(c: Conn, j: nat)
    requires Guarded(c) && Enabled(c, Collect(j))
    ensures Guarded(Next(c, Collect(j)))
  {
    var c' := Next(c, Collect(j));
    forall id | id in c'.table && Beyond(c', id) ensures Covered(c', id) {
      assert Beyond(c, id);
      var k :| 0 <= k < |c.jobs| && Covers(c.jobs[k], id);
      assert Covers(c'.jobs[k], id);
    }
  }

  lemma {:induction false} CloseTargetGuards(c: Conn, j: nat, id: nat)
    requires Inv(c) && Guarded(c) && Enabled(c, CloseTarget(j, id))
    ensures Guarded(Next(c, CloseTarget(j, id))) && Next(c, CloseTarget(j, id)).table <= c.table
  {
    var c' := Next(c, CloseTarget(j, id));
    SwapTable(c, id, Closed);
    assert id !in c'.table;
    forall x | x in c'.table && Beyond(c', x) ensures Covered(c', x) {
      assert Beyond(c, x) && x in c.table;
      var k :| 0 <= k < |c.jobs| && Covers(c.jobs[k], x);
      assert Covers(c'.jobs[k], x);
    }
  }

  lemma {:induction false} FinishJobGuards(c: Conn, j: nat)
    requires Guarded(c) && Enabled(c, FinishJob(j))
    ensures Guarded(Next(c, FinishJob(j)))
  {
    var c' := Next(c, FinishJob(j));
    forall id | id in c'.table && Beyond(c', id) ensures Covered(c', id) {
      assert Beyond(c, id);
      var k :| 0 <= k < |c.jobs| && Covers(c.jobs[k], id);
      assert k != j;
      assert c'.jobs[if k < j then k else k - 1] == c.jobs[k];
    }
  }

  // ----- Whole runs

  ghost predicate IsRun(c: Conn, run: seq<Action>)
    decreases |run|
  {
    run == [] || (Enabled(c, run[0]) && IsRun(Next(c, run[0]), run[1..]))
  }

  ghost function After(c: Conn, run: seq<Action>): (c': Conn)
    requires IsRun(c, run)
    decreases |run|
  {
    if run == [] then c else After(Next(c, run[0]), run[1..])
  }

  /** Every GOAWAY of the run is stored at a calm moment. */
  ghost predicate CalmRun(c: Conn, run: seq<Action>)
    requires IsRun(c, run)
    decreases |run|
  {
    run == [] || (Calm(c, run[0]) && CalmRun(Next(c, run[0]), run[1..]))
  }

  lemma {:induction false} RunKeeps(c: Conn, run: seq<Action>)
    requires Inv(c) && IsRun(c, run)
    ensures Inv(After(c, run))
    decreases |run|
  {
    if run != [] {
      StepKeeps(c, run[0]);
      RunKeeps(Next(c, run[0]), run[1..]);
    }
  }

  lemma {:induction false} GuardedRun(c: Conn, run: seq<Action>)
    requires Inv(c) && Guarded(c) && IsRun(c, run) && CalmRun(c, run)
    ensures Guarded(After(c, run))
    decreases |run|
  {
    if run != [] {
      StepKeeps(c, run[0]);
      GuardKeeps(c, run[0]);
      GuardedRun(Next(c, run[0]), run[1..]);
    }
  }

  /** In every run the table, the counters, the identifiers and the GOAWAYs are in order. */
  lemma {:induction false} TableAccounts(server: bool, run: seq<Action>)
    requires IsRun(NewConn(server), run)
    ensures Inv(After(NewConn(server), run))
  {
    NewConnOk(server);
    RunKeeps(NewConn(server), run);
  }

  /** The identifiers of one side whose streams are open in some direction. */
  function OpenIds(c: Conn, own: bool): (r: set<nat>) {
    set id | id in c.streams && (Sends(c.streams[id]) || Receives(c.streams[id])) && ValidId(c.server == own, id)
  }

  /** In every run the map holds the streams that have left idle and are not closed, and each side's counter is
      the number of its streams that are open in some direction. */
  lemma {:induction false} TableMeaning(server: bool, run: seq<Action>)
    requires IsRun(NewConn(server), run)
    ensures var c := After(NewConn(server), run);
      && (forall id :: id in c.table <==> id in c.streams && c.streams[id] != Idle && c.streams[id] != Closed)
      && c.local.num == |OpenIds(c, true)| && c.remote.num == |OpenIds(c, false)|
  {
    TableAccounts(server, run);
    ServerKept(NewConn(server), run);
    var c := After(NewConn(server), run);
    PositiveRun(NewConn(server), run);
    assert OpenIds(c, true) == ActiveIds(c, true);
    assert OpenIds(c, false) == ActiveIds(c, false);
  }

  lemma {:induction false} PositiveRun(c: Conn, run: seq<Action>)
    requires Positive(c) && IsRun(c, run)
    ensures Positive(After(c, run))
    decreases |run|
  {
    if run != [] {
      PositiveStep(c, run[0]);
      PositiveRun(Next(c, run[0]), run[1..]);
    }
  }

  /** Stream 0 is never a stream of the table. */
  ghost predicate Positive(c: Conn) {
    forall id :: id in c.streams ==> id > 0
  }

  lemma {:induction false} PositiveStep(c: Conn, a: Action)
    requires Positive(c) && Enabled(c, a)
    ensures Positive(Next(c, a))
  {
  }

  /** HEADERS of the peer are read if and only if no GOAWAY with a smaller identifier was sent. */
  lemma {:induction false} HeadersReadIff(c: Conn, id: nat)
    requires Inv(c) && ValidId(!c.server, id)
    ensures Enabled(c, ReadHeaders(id)) <==> c.reader == Ready && forall i :: 0 <= i < |c.goAwaySent| ==> id <= c.goAwaySent[i]
  {
    if c.goAwaySent != [] {
      var l := |c.goAwaySent| - 1;
      assert forall i :: 0 <= i < l ==> c.goAwaySent[l] <= c.goAwaySent[i];
    }
  }

  /** In a calm run, once the jobs are done, no stream of the peer above the last identifier sent is left. */
  lemma {:induction false} GoAwayRespected(server: bool, run: seq<Action>)
    requires IsRun(NewConn(server), run) && CalmRun(NewConn(server), run)
    ensures var c := After(NewConn(server), run);
      c.jobs == [] ==> forall id :: id in c.table ==> !Beyond(c, id)
    ensures var c := After(NewConn(server), run);
      c.jobs == [] && c.goAwaySent != [] ==>
        forall id :: id in c.table && ValidId(!server, id) ==> id <= c.goAwaySent[|c.goAwaySent| - 1]
  {
    NewConnOk(server);
    GuardedRun(NewConn(server), run);
    ServerKept(NewConn(server), run);
  }

  // ----- Who survives a GOAWAY

  /** What a job is about to close are streams of the peer above the job's last identifier. */
  predicate TargetsBeyond(c: Conn) {
    forall j, id :: 0 <= j < |c.jobs| && id in c.jobs[j].targets ==> ValidId(!c.server, id) && id > c.jobs[j].last
  }

  lemma {:induction false} TargetsStep(c: Conn, a: Action)
    requires TargetsBeyond(c) && Enabled(c, a)
    ensures TargetsBeyond(Next(c, a))
  {
    if a.FinishJob? {
      var c' := Next(c, a);
      forall k, id | 0 <= k < |c'.jobs| && id in c'.jobs[k].targets ensures ValidId(!c'.server, id) && id > c'.jobs[k].last {
        assert c'.jobs[k] == c.jobs[if k < a.j then k else k + 1];
      }
    }
  }

  lemma {:induction false} TargetsRun(c: Conn, run: seq<Action>)
    requires TargetsBeyond(c) && IsRun(c, run)
    ensures TargetsBeyond(After(c, run))
    decreases |run|
  {
    if run != [] {
      TargetsStep(c, run[0]);
      TargetsRun(Next(c, run[0]), run[1..]);
    }
  }

  /** The steps of sending a GOAWAY: the job they work for, and its last identifier. */
  function GoAwayLast(c: Conn, a: Action): (last: Option<nat>)
    requires Enabled(c, a)
  {
    match a
    case StoreGoAway(last) => Some(last)
    case Collect(j) => Some(c.jobs[j].last)
    case CloseTarget(j, _) => Some(c.jobs[j].last)
    case FinishJob(j) => Some(c.jobs[j].last)
    case _ => None
  }

  /** In every run sending a GOAWAY leaves streams of one's own, and those of the peer up to its last
      identifier, as they are and where they are; a stream it changes is closed. */
  lemma {:induction false} GoAwaySpares(server: bool, run: seq<Action>, a: Action, id: nat)
    requires IsRun(NewConn(server), run) && Enabled(After(NewConn(server), run), a)
    ensures var c := After(NewConn(server), run);
      var c' := Next(c, a);
      GoAwayLast(c, a).Some? && id in c.streams ==>
        && id in c'.streams && (c'.streams[id] == c.streams[id] || c'.streams[id] == Closed)
        && (!ValidId(!server, id) || id <= GoAwayLast(c, a).value ==>
              c'.streams[id] == c.streams[id] && (id in c'.table <==> id in c.table))
        && c'.local.next == c.local.next && c'.remote.next == c.remote.next
  {
    TargetsRun(NewConn(server), run);
    ServerKept(NewConn(server), run);
  }

  lemma {:induction false} ServerKept(c: Conn, run: seq<Action>)
    requires IsRun(c, run)
    ensures After(c, run).server == c.server
    decreases |run|
  {
    if run != [] { ServerKept(Next(c, run[0]), run[1..]); }
  }

  // ----- Leaks

  /** A stream above the last identifier sent that no job will close. */
  predicate Leaks(c: Conn, id: nat) {
    id in c.table && Beyond(c, id) && !Covered(c, id)
  }

  /** A run in which GOAWAYs are stored at calm moments ends with such a stream. */
  ghost predicate CanLeak(c: Conn, run: seq<Action>, id: nat) {
    IsRun(c, run) && CalmRun(c, run) && Leaks(After(c, run), id)
  }

  /** The frame the reader holds has its stream, or would be given one. */
  predicate Admissible(c: Conn, limit: int) {
    c.reader.Made? || (c.reader.Checked? && Enabled(c, MakeRemote(limit)))
  }

  /** Store, collect, and then let the reader go on. */
  function LeakingRun(c: Conn, limit: int): (run: seq<Action>) {
    if c.reader.Made? then [Collect(|c.jobs|), FinishRead(false)]
    else [Collect(|c.jobs|), MakeRemote(limit), FinishRead(false)]
  }

  lemma {:induction false} RunOfOne(c: Conn, a: Action)
    requires Enabled(c, a) && !a.StoreGoAway?
    ensures IsRun(c, [a]) && CalmRun(c, [a]) && After(c, [a]) == Next(c, a)
  {
    RunOfOneMore(c, a, []);
    assert [a] + [] == [a];
  }

  lemma {:induction false} RunOfTwo(c: Conn, a: Action, b: Action)
    requires Enabled(c, a) && Enabled(Next(c, a), b) && !a.StoreGoAway? && !b.StoreGoAway?
    ensures IsRun(c, [a, b]) && CalmRun(c, [a, b]) && After(c, [a, b]) == Next(Next(c, a), b)
  {
    RunOfOne(Next(c, a), b);
    RunOfOneMore(c, a, [b]);
    assert [a] + [b] == [a, b];
  }

  lemma {:induction false} RunOfOneMore(c: Conn, a: Action, run: seq<Action>)
    requires Enabled(c, a) && !a.StoreGoAway? && IsRun(Next(c, a), run) && CalmRun(Next(c, a), run)
    ensures IsRun(c, [a] + run) && CalmRun(c, [a] + run) && After(c, [a] + run) == After(Next(c, a), run)
  {
    assert ([a] + run)[1..] == run;
  }

  /** After the new GOAWAY has collected its streams, none of the jobs has the reader's. */
  lemma {:induction false} Uncovered(c: Conn, last: nat, limit: int)
    requires Inv(c) && Guarded(c) && Enabled(c, StoreGoAway(last)) && !Calm(c, StoreGoAway(last)) && Admissible(c, limit)
    ensures var c1 := Next(c, StoreGoAway(last));
      Enabled(c1, Collect(|c.jobs|)) && var c2 := Next(c1, Collect(|c.jobs|));
      !Covered(c2, c.reader.id) && Beyond(c2, c.reader.id) && c2.streams == c.streams && c2.reader == c.reader
      && c2.table == c.table && c2.server == c.server
  {
    var id, n := c.reader.id, |c.jobs|;
    var c1 := Next(c, StoreGoAway(last));
    var c2 := Next(c1, Collect(n));
    assert id !in c.table;
    forall j | 0 <= j < |c2.jobs| ensures !Covers(c2.jobs[j], id) {
      if j < n {
        assert c2.jobs[j] == c.jobs[j];
        assert id in c.jobs[j].targets ==> Targeted(c, id);
      }
    }
  }

  lemma {:induction false} FinishLeaks(c: Conn)
    requires c.reader.Made? && c.reader.id in c.streams && c.streams[c.reader.id] == Idle
    requires Beyond(c, c.reader.id) && !Covered(c, c.reader.id)
    ensures Enabled(c, FinishRead(false)) && Leaks(Next(c, FinishRead(false)), c.reader.id)
  {
    SwapFrame(c, c.reader.id, Transition(Idle, true, Headers, false).to);
  }

  /** Whenever a GOAWAY is stored at another moment, the frame the reader holds, made into a stream or
      not yet, can still become a stream above its last identifier that no job will close. */
  lemma {:induction false} UncalmLeaks(c: Conn, last: nat, limit: int)
    requires Inv(c) && Guarded(c) && Enabled(c, StoreGoAway(last)) && !Calm(c, StoreGoAway(last)) && Admissible(c, limit)
    ensures var c1 := Next(c, StoreGoAway(last));
      && IsRun(c1, LeakingRun(c, limit)) && CalmRun(c1, LeakingRun(c, limit))
      && Leaks(After(c1, LeakingRun(c, limit)), c.reader.id)
  {
    Uncovered(c, last, limit);
    var c1 := Next(c, StoreGoAway(last));
    var c2 := Next(c1, Collect(|c.jobs|));
    if c.reader.Made? {
      FinishLeaks(c2);
      RunOfTwo(c1, Collect(|c.jobs|), FinishRead(false));
    } else {
      var c3 := Next(c2, MakeRemote(limit));
      assert Covered(c3, c.reader.id) == Covered(c2, c.reader.id);
      FinishLeaks(c3);
      RunOfTwo(c2, MakeRemote(limit), FinishRead(false));
      RunOfOneMore(c1, Collect(|c.jobs|), [MakeRemote(limit), FinishRead(false)]);
      assert LeakingRun(c, limit) == [Collect(|c.jobs|)] + [MakeRemote(limit), FinishRead(false)];
    }
  }

  /** For a frame that is made into a stream or would be: after storing a GOAWAY no continuation, in
      which further GOAWAYs come at calm moments, leaks a stream if and only if this one does. */
  lemma {:induction false} LeakFreeIffCalm(c: Conn, last: nat, limit: int)
    requires Inv(c) && Guarded(c) && Enabled(c, StoreGoAway(last)) && (c.reader != Ready ==> Admissible(c, limit))
    ensures var c1 := Next(c, StoreGoAway(last));
      Calm(c, StoreGoAway(last)) <==>
      forall run, id :: !CanLeak(c1, run, id)
  {
    var c1 := Next(c, StoreGoAway(last));
    if Calm(c, StoreGoAway(last)) {
      StepKeeps(c, StoreGoAway(last));
      GuardKeeps(c, StoreGoAway(last));
      forall run, id ensures !CanLeak(c1, run, id) {
        if IsRun(c1, run) && CalmRun(c1, run) { GuardedRun(c1, run); }
      }
    } else {
      UncalmLeaks(c, last, limit);
      assert CanLeak(c1, LeakingRun(c, limit), c.reader.id);
    }
  }

  lemma {:induction false} NewConnOk(server: bool)
    ensures Inv(NewConn(server)) && Guarded(NewConn(server))
  {
    var c := NewConn(server);
    assert ActiveIds(c, true) == {} && ActiveIds(c, false) == {};
  }

  function RaceRun(id: nat, last: nat, limit: int, jobs: nat): (run: seq<Action>) {
    [ReadHeaders(id), StoreGoAway(last), Collect(jobs), MakeRemote(limit), FinishRead(false)]
  }

  lemma {:induction false} RaceFrom(c: Conn, id: nat, last: nat, limit: int)
    requires Inv(c) && Guarded(c) && c.reader == Ready && !Beyond(c, id) && id !in c.table
    requires Enabled(c, StoreGoAway(last)) && ValidId(!c.server, id) && id > last
    requires IdleError(c, c.remote, !c.server, id, limit) == None
    ensures IsRun(c, RaceRun(id, last, limit, |c.jobs|)) && Leaks(After(c, RaceRun(id, last, limit, |c.jobs|)), id)
  {
    StepKeeps(c, ReadHeaders(id));
    GuardKeeps(c, ReadHeaders(id));
    var c1 := Next(c, ReadHeaders(id));
    UncalmLeaks(c1, last, limit);
    var rest := LeakingRun(c1, limit);
    RunFrom(c1, StoreGoAway(last), rest);
    RunFrom(c, ReadHeaders(id), [StoreGoAway(last)] + rest);
    assert [ReadHeaders(id)] + ([StoreGoAway(last)] + rest) == RaceRun(id, last, limit, |c.jobs|);
  }

  /** A run in which one does: the reader passes the check, the GOAWAY is stored and its streams are
      collected, and then the reader adds the stream. */
  lemma {:induction false} GoAwayRace()
    ensures IsRun(NewConn(true), RaceRun(1, 0, 100, 0)) && Leaks(After(NewConn(true), RaceRun(1, 0, 100, 0)), 1)
  {
    NewConnOk(true);
    RaceFrom(NewConn(true), 1, 0, 100);
  }

  lemma {:induction false} RunFrom(c: Conn, a: Action, run: seq<Action>)
    requires Enabled(c, a) && IsRun(Next(c, a), run)
    ensures IsRun(c, [a] + run) && After(c, [a] + run) == After(Next(c, a), run)
  {
    assert ([a] + run)[1..] == run;
  }

  // ----- The connection object

  class ConnObject {
    const server: bool
    var local: Side
    var remote: Side
    var streams: map<nat, State>
    var table: set<nat>
    var closes: map<nat, nat>
    var goAwayReceived: bool
    var goAwaySent: seq<nat>
    ghost var jobs: seq<Job>
    ghost var reader: Reader

    ghost function Value(): (c: Conn)
      reads this
    {
      Conn(server, local, remote, streams, table, closes, goAwayReceived, goAwaySent, jobs, reader)
    }

    constructor (server: bool)
      ensures Value() == NewConn(server)
    {
      this.server := server;
      local, remote := Side(if server then 2 else 1, 0, []), Side(if server then 1 else 2, 0, []);
      streams, table, closes := map[], {}, map[];
      goAwayReceived, goAwaySent := false, [];
      jobs, reader := [], Ready;
    }

    /** idleStream of the local side, or of the remote one: a refusal changes nothing, an accepted
        identifier makes an idle stream that is not in the table yet. */
    method IdleStream(own: bool, id: nat, limit: int) returns (e: Option<IdError>)
      modifies this
      ensures e == (if own then IdleError(old(Value()), old(local), server, id, limit)
                    else IdleError(old(Value()), old(remote), !server, id, limit))
      ensures Value() == if e.Some? then old(Value())
        else if own then old(Value()).(local := Claim(old(local), id), streams := old(streams)[id := Idle])
        else old(Value()).(remote := Claim(old(remote), id), streams := old(streams)[id := Idle])
    {
      var side := if own then local else remote;
      if goAwayReceived { return Some(GoAwayReceived); }
      if !ValidId(own == server, id) { return Some(BadId); }
      if id < side.next { return Some(ClosedStream); }
      if side.num + 1 > limit { return Some(TooMany); }
      side := side.(next := id + 2, ids := side.ids + [id]);
      if own { local := side; } else { remote := side; }
      streams := streams[id := Idle];
      e := None;
    }

    method AddActive(id: nat, n: int)
      modifies this`local, this`remote
      ensures local == Bump(old(local), server == (id % 2 == 0), n)
      ensures remote == Bump(old(remote), server != (id % 2 == 0), n)
    {
      if server == (id % 2 == 0) {
        local := local.(num := local.num + n);
      } else {
        remote := remote.(num := remote.num + n);
      }
    }

    /** compareAndSwapState: the counters, the table and the closing effects of a change of state. */
    method CompareAndSwap(id: nat, from: State, to: State) returns (ok: bool)
      requires id in streams
      modifies this
      ensures ok == (old(streams)[id] == from)
      ensures Value() == if ok then Swap(old(Value()), id, to) else old(Value())
    {
      if streams[id] != from { return false; }
      streams := streams[id := to];
      TakeEffect(id, from, to);
      ok := true;
    }

    /** What entering a state does beside. */
    method TakeEffect(id: nat, from: State, to: State)
      modifies this`local, this`remote, this`closes, this`table
      ensures local == Bump(old(local), server == (id % 2 == 0), CountChange(from, to))
      ensures remote == Bump(old(remote), server != (id % 2 == 0), CountChange(from, to))
      ensures table == TableAfter(old(table), id, from, to)
      ensures closes == if to == Closed && from != Closed then old(closes)[id := Closes(old(closes), id) + 1] else old(closes)
    {
      if Reserved(to) {
        if from == Idle { table := table + {id}; }
      } else if Active(to) {
        Activating(id, from);
      } else if to == Closed {
        Closing(id, from);
      }
    }

    method Activating(id: nat, from: State)
      modifies this`local, this`remote, this`table
      ensures local == Bump(old(local), server == (id % 2 == 0), CountChange(from, State.Open))
      ensures remote == Bump(old(remote), server != (id % 2 == 0), CountChange(from, State.Open))
      ensures table == TableAfter(old(table), id, from, State.Open)
    {
      if from == Idle || Reserved(from) {
        AddActive(id, 1);
        if from == Idle { table := table + {id}; }
      }
    }

    method Closing(id: nat, from: State)
      modifies this`local, this`remote, this`closes, this`table
      ensures local == Bump(old(local), server == (id % 2 == 0), CountChange(from, Closed))
      ensures remote == Bump(old(remote), server != (id % 2 == 0), CountChange(from, Closed))
      ensures table == TableAfter(old(table), id, from, Closed)
      ensures closes == if from != Closed then old(closes)[id := Closes(old(closes), id) + 1] else old(closes)
    {
      if Active(from) { AddActive(id, -1); }
      if from != Closed {
        closes := closes[id := Closes(closes, id) + 1];
        table := table - {id};
      }
    }
  }
}
