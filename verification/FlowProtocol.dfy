/** Flow control between two endpoints as interleaved atomic steps: any number of streams and of
    allocators on the sending side, FIFO links for DATA and for WINDOW_UPDATE, and the receiver's
    nested windows. Credit is conserved on the connection and on every live stream. */
module FlowProtocol {
  import opened Wrappers
  import opened FlowControl

  // ----- Sums over sequences

  function Sum<T>(f: T -> int, s: seq<T>): (n: int) {
    if s == [] then 0 else Sum(f, s[..|s| - 1]) + f(s[|s| - 1])
  }

  lemma {:induction false} SumAppend<T>(f: T -> int, s: seq<T>, x: T)
    ensures Sum(f, s + [x]) == Sum(f, s) + f(x)
  {
    assert (s + [x])[..|s|] == s;
  }

  lemma {:induction false} SumUpdate<T>(f: T -> int, s: seq<T>, i: nat, x: T)
    requires i < |s|
    ensures Sum(f, s[i := x]) == Sum(f, s) - f(s[i]) + f(x)
  {
    var front := s[..|s| - 1];
    if i < |s| - 1 {
      SumUpdate(f, front, i, x);
      assert s[i := x][..|s| - 1] == front[i := x];
    } else {
      assert s[i := x][..|s| - 1] == front;
    }
  }

  lemma {:induction false} SumTail<T>(f: T -> int, s: seq<T>)
    requires s != []
    ensures Sum(f, s) == f(s[0]) + Sum(f, s[1..])
  {
    if |s| > 1 {
      SumTail(f, s[..|s| - 1]);
      assert s[..|s| - 1][1..] == s[1..][..|s| - 2];
    } else {
      assert s[..0] == [] && s[1..] == [];
    }
  }

  lemma {:induction false} SumNonNegative<T>(f: T -> int, s: seq<T>)
    requires forall i :: 0 <= i < |s| ==> f(s[i]) >= 0
    ensures Sum(f, s) >= 0
  {
    if s != [] { SumNonNegative(f, s[..|s| - 1]); }
  }

  lemma {:induction false} SumZero<T>(f: T -> int, s: seq<T>)
    requires forall i :: 0 <= i < |s| ==> f(s[i]) == 0
    ensures Sum(f, s) == 0
  {
    if s != [] { SumZero(f, s[..|s| - 1]); }
  }

  lemma {:induction false} SumPart<T>(f: T -> int, s: seq<T>, i: nat)
    requires i < |s| && forall k :: 0 <= k < |s| ==> f(s[k]) >= 0
    ensures f(s[i]) <= Sum(f, s)
  {
    SumNonNegative(f, s[..|s| - 1]);
    if i < |s| - 1 { SumPart(f, s[..|s| - 1], i); }
  }

  // ----- State

  /** A stream that can send, or is half-closed and still known, or is gone. */
  datatype SendStream = SendStream(flow: Send, live: bool, known: bool)

  datatype RecvStream = RecvStream(flow: Recv, live: bool)

  /** Where a call of allocateBytes for n bytes stands: waiting for the stream's credit, about to
      wait and waiting for the connection's, holding both, having given back the stream's
      remainder, and done with k bytes allocated. */
  datatype Phase =
    | Idle
    | AwaitStream(n: int)
    | HasStream(n: int, sw: int)
    | AwaitConn(n: int, sw: int)
    | HasBoth(n: int, sw: int, cw: int)
    | StreamSettled(n: int, k: int, cw: int)
    | Allocated(n: int, k: int)

  datatype Proc = Proc(stream: nat, phase: Phase)

  datatype Data = Data(stream: nat, n: int)

  datatype Target = Conn | Stream(i: nat)

  datatype Update = Update(target: Target, inc: int)

  datatype System = System(
    c: Send, s: seq<SendStream>, procs: seq<Proc>, data: seq<Data>,
    updates: seq<Update>, rc: Recv, r: seq<RecvStream>, discard: int)

  // ----- Credit by place

  function ConnHeld(p: Proc): (n: int) {
    match p.phase
    case HasBoth(_, _, cw) => cw
    case StreamSettled(_, _, cw) => cw
    case Allocated(_, k) => k
    case _ => 0
  }

  function Held(p: Proc): (n: int) {
    match p.phase
    case HasStream(_, sw) => sw
    case AwaitConn(_, sw) => sw
    case HasBoth(_, sw, _) => sw
    case StreamSettled(_, k, _) => k
    case Allocated(_, k) => k
    case _ => 0
  }

  function HeldOf(i: nat): (f: Proc -> int) {
    (p: Proc) => if p.stream == i then Held(p) else 0
  }

  function Length(d: Data): (n: int) {
    d.n
  }

  function LengthOf(i: nat): (f: Data -> int) {
    (d: Data) => if d.stream == i then d.n else 0
  }

  function IncFor(t: Target): (f: Update -> int) {
    (u: Update) => if u.target == t then u.inc else 0
  }

  /** Sender credit, credit in allocators' hands, bytes in flight and increments in flight. */
  function ConnSum(y: System): (n: int) {
    Credit(y.c) + Sum(ConnHeld, y.procs) + Sum(Length, y.data) + Sum(IncFor(Conn), y.updates)
  }

  function StreamSum(y: System, i: nat): (n: int)
    requires i < |y.s|
  {
    Credit(y.s[i].flow) + Sum(HeldOf(i), y.procs) + Sum(LengthOf(i), y.data) + Sum(IncFor(Stream(i)), y.updates)
  }

  function Outstanding(x: RecvStream): (n: int) {
    if x.live then Unreturned(x.flow) else 0
  }

  // ----- Invariant

  predicate ProcOk(p: Proc, streams: nat) {
    p.stream < streams &&
    match p.phase
    case Idle => true
    case AwaitStream(n) => n > 0
    case HasStream(n, sw) => n > 0 && sw > 0
    case AwaitConn(n, sw) => n > 0 && sw > 0
    case HasBoth(n, sw, cw) => n > 0 && sw > 0 && cw > 0
    case StreamSettled(n, k, cw) => 1 <= k <= n && k <= cw
    case Allocated(n, k) => 1 <= k <= n
  }

  predicate TargetOk(x: Target, streams: nat) {
    x.Stream? ==> x.i < streams
  }

  /** Everything counted is non-negative and refers to existing streams. */
  predicate WellFormed(t: Rule, y: System) {
    && |y.s| == |y.r|
    && SendOk(y.c) && (forall i :: 0 <= i < |y.s| ==> SendOk(y.s[i].flow) && (y.s[i].live ==> y.s[i].known))
    && Good(t, y.rc) && (forall i :: 0 <= i < |y.r| ==> Good(t, y.r[i].flow))
    && (forall j :: 0 <= j < |y.procs| ==> ProcOk(y.procs[j], |y.s|))
    && (forall j :: 0 <= j < |y.data| ==> y.data[j].n > 0 && y.data[j].stream < |y.s|)
    && (forall j :: 0 <= j < |y.updates| ==> y.updates[j].inc > 0 && TargetOk(y.updates[j].target, |y.s|))
    && y.discard >= 0
  }

  /** Connection credit is conserved; so is the credit of a stream live on both sides, and a
      half-closed one never has too much. The connection owes what its streams owe. */
  predicate Balanced(y: System) {
    && |y.s| == |y.r|
    && ConnSum(y) == y.rc.win
    && (forall i :: 0 <= i < |y.s| ==> StreamSum(y, i) <= y.r[i].flow.win)
    && (forall i :: 0 <= i < |y.s| && y.s[i].live && y.r[i].live ==> StreamSum(y, i) == y.r[i].flow.win)
    && Unreturned(y.rc) == Sum(Outstanding, y.r) + y.discard
  }

  predicate Inv(t: Rule, y: System) {
    WellFormed(t, y) && Balanced(y)
  }

  // ----- Steps

  datatype Action =
    | Open(w: int)
    | Spawn(i: nat)
    | Begin(j: nat, n: int)
    | TakeStream(j: nat)
    | PokeConn(j: nat)
    | TakeConn(j: nat)
    | Abort(j: nat)
    | SettleStream(j: nat)
    | SettleConn(j: nat)
    | Transmit(j: nat)
    | Receive
    | ReturnBytes(i: nat, n: int)
    | ReturnDiscarded(n: int)
    | GrowConn(delta: int)
    | GrowStream(i: nat, delta: int)
    | CloseReceiver(i: nat)
    | CloseSender(i: nat, gone: bool)
    | ApplyUpdate

  /** The bytes a call obtains: no more than asked, than the stream has, than the connection has. */
  function Allowed(n: int, sw: int, cw: int): (k: int) {
    Min(Min(n, sw), cw)
  }

  function Announce(updates: seq<Update>, t: Target, inc: int): (r: seq<Update>) {
    if inc > 0 then updates + [Update(t, inc)] else updates
  }

  predicate Enabled(y: System, a: Action) {
    match a
    case Open(w) => 0 <= w <= MAX_WINDOW
    case Spawn(i) => i < |y.s|
    case Begin(j, n) => j < |y.procs| && y.procs[j].phase == Idle && n > 0 && y.procs[j].stream < |y.s|
    case TakeStream(j) =>
      j < |y.procs| && y.procs[j].phase.AwaitStream? && y.procs[j].stream < |y.s| && y.s[y.procs[j].stream].flow.ch.Some?
    case PokeConn(j) => j < |y.procs| && y.procs[j].phase.HasStream?
    case TakeConn(j) => j < |y.procs| && y.procs[j].phase.AwaitConn? && y.c.ch.Some?
    case Abort(j) =>
      && j < |y.procs| && (y.procs[j].phase.AwaitStream? || y.procs[j].phase.AwaitConn?)
      && y.procs[j].stream < |y.s| && !y.s[y.procs[j].stream].live
    case SettleStream(j) => j < |y.procs| && y.procs[j].phase.HasBoth? && y.procs[j].stream < |y.s|
    case SettleConn(j) => j < |y.procs| && y.procs[j].phase.StreamSettled?
    case Transmit(j) => j < |y.procs| && y.procs[j].phase.Allocated?
    case Receive => y.data != [] && y.data[0].stream < |y.r|
    case ReturnBytes(i, n) => i < |y.r| && y.r[i].live && 0 <= n <= Unreturned(y.r[i].flow)
    case ReturnDiscarded(n) => 0 <= n <= y.discard
    case GrowConn(delta) => delta >= 0
    case GrowStream(i, delta) => i < |y.r| && y.r[i].live && delta >= 0
    case CloseReceiver(i) => i < |y.r| && y.r[i].live
    case CloseSender(i, gone) => i < |y.s| && y.s[i].known && (y.s[i].live || gone)
    case ApplyUpdate => y.updates != []
  }

  function WithPhase(y: System, j: nat, ph: Phase): (y': System)
    requires j < |y.procs|
  {
    y.(procs := y.procs[j := y.procs[j].(phase := ph)])
  }

  function WithFlow(y: System, i: nat, f: Send): (y': System)
    requires i < |y.s|
  {
    y.(s := y.s[i := y.s[i].(flow := f)])
  }

  /** n bytes of a stream are returned to the connection and to the stream, which may each announce
      a larger window. */
  function GiveBack(t: Rule, y: System, i: nat, n: int, live: bool): (y': System)
    requires i < |y.r|
  {
    var c, s := Return(t, y.rc, n), Return(t, y.r[i].flow, n);
    var u := Announce(y.updates, Conn, if c.Ok? then c.inc else 0);
    y.(rc := c.r, r := y.r[i := RecvStream(s.r, live)], updates := Announce(u, Stream(i), if s.Ok? then s.inc else 0))
  }

  function Next(t: Rule, y: System, a: Action): (y': System)
    requires Enabled(y, a)
  {
    match a
    case Open(w) =>
      y.(s := y.s + [SendStream(UpdateSend(Send(0, None), w, true), true, true)], r := y.r + [RecvStream(Initial(w), true)])
    case Spawn(i) => y.(procs := y.procs + [Proc(i, Idle)])
    case Begin(j, n) =>
      var i := y.procs[j].stream;
      WithPhase(WithFlow(y, i, UpdateSend(y.s[i].flow, 0, false)), j, AwaitStream(n))
    case TakeStream(j) =>
      var i, f := y.procs[j].stream, y.s[y.procs[j].stream].flow;
      WithPhase(WithFlow(y, i, Send(f.win, None)), j, HasStream(y.procs[j].phase.n, f.ch.value))
    case PokeConn(j) =>
      var ph := y.procs[j].phase;
      WithPhase(y.(c := UpdateSend(y.c, 0, false)), j, AwaitConn(ph.n, ph.sw))
    case TakeConn(j) =>
      var ph := y.procs[j].phase;
      WithPhase(y.(c := Send(y.c.win, None)), j, HasBoth(ph.n, ph.sw, y.c.ch.value))
    case Abort(j) =>
      WithPhase(y.(c := if y.procs[j].phase.AwaitConn? then Unpark(y.c) else y.c), j, Idle)
    case SettleStream(j) =>
      var i, ph := y.procs[j].stream, y.procs[j].phase;
      var k := Allowed(ph.n, ph.sw, ph.cw);
      var f := y.s[i].flow;
      WithPhase(WithFlow(y, i, if k < ph.sw then UpdateSend(f, ph.sw - k, false) else f), j, StreamSettled(ph.n, k, ph.cw))
    case SettleConn(j) =>
      var ph := y.procs[j].phase;
      WithPhase(y.(c := if ph.k < ph.cw then UpdateSend(y.c, ph.cw - ph.k, false) else y.c), j, Allocated(ph.n, ph.k))
    case Transmit(j) =>
      WithPhase(y.(data := y.data + [Data(y.procs[j].stream, y.procs[j].phase.k)]), j, Idle)
    case Receive =>
      var d := y.data[0];
      var y1 := y.(data := y.data[1..], rc := Consume(y.rc, d.n).r);
      var x := y.r[d.stream];
      if x.live then y1.(r := y.r[d.stream := x.(flow := Consume(x.flow, d.n).r)])
      else y1.(discard := y.discard + d.n)
    case ReturnBytes(i, n) => GiveBack(t, y, i, n, true)
    case ReturnDiscarded(n) =>
      var c := Return(t, y.rc, n);
      y.(rc := c.r, discard := y.discard - n, updates := Announce(y.updates, Conn, if c.Ok? then c.inc else 0))
    case GrowConn(delta) =>
      var c := Grow(t, y.rc, delta);
      y.(rc := c.r, updates := Announce(y.updates, Conn, if c.Ok? then c.inc else 0))
    case GrowStream(i, delta) =>
      var x := Grow(t, y.r[i].flow, delta);
      y.(r := y.r[i := y.r[i].(flow := x.r)], updates := Announce(y.updates, Stream(i), if x.Ok? then x.inc else 0))
    case CloseReceiver(i) => GiveBack(t, y, i, Unreturned(y.r[i].flow), false)
    case CloseSender(i, gone) => y.(s := y.s[i := SendStream(Send(0, None), false, !gone)])
    case ApplyUpdate =>
      var u := y.updates[0];
      var y1 := y.(updates := y.updates[1..]);
      match u.target
      case Conn => y1.(c := UpdateSend(y.c, u.inc, false))
      case Stream(i) =>
        if i < |y.s| && y.s[i].known then WithFlow(y1, i, UpdateSend(y.s[i].flow, u.inc, false)) else y1
  }

  // ----- How steps move credit

  lemma {:induction false} PhaseSums(y: System, j: nat, ph: Phase)
    requires j < |y.procs|
    ensures var y', p := WithPhase(y, j, ph), y.procs[j];
      && ConnSum(y') == ConnSum(y) - ConnHeld(p) + ConnHeld(p.(phase := ph))
      && forall i :: 0 <= i < |y.s| ==>
           StreamSum(y', i) == StreamSum(y, i) - HeldOf(i)(p) + HeldOf(i)(p.(phase := ph))
  {
    var p' := y.procs[j].(phase := ph);
    SumUpdate(ConnHeld, y.procs, j, p');
    forall i | 0 <= i < |y.s|
      ensures StreamSum(WithPhase(y, j, ph), i) == StreamSum(y, i) - HeldOf(i)(y.procs[j]) + HeldOf(i)(p')
    {
      SumUpdate(HeldOf(i), y.procs, j, p');
    }
  }

  lemma {:induction false} FlowSums(y: System, i: nat, f: Send)
    requires i < |y.s|
    ensures var y' := WithFlow(y, i, f);
      && ConnSum(y') == ConnSum(y)
      && forall k :: 0 <= k < |y.s| ==>
           StreamSum(y', k) == StreamSum(y, k) + (if k == i then Credit(f) - Credit(y.s[i].flow) else 0)
  {
  }

  lemma {:induction false} AnnounceSums(updates: seq<Update>, t: Target, inc: int, x: Target)
    ensures Sum(IncFor(x), Announce(updates, t, inc)) ==
            Sum(IncFor(x), updates) + (if x == t && inc > 0 then inc else 0)
  {
    SumAppend(IncFor(x), updates, Update(t, inc));
  }

  /** No place holds more than the receiver's window, hence none more than 2^31-1. */
  lemma {:induction false} ConnParts(t: Rule, y: System)
    requires HalfRule(t) && Inv(t, y)
    ensures Credit(y.c) <= y.rc.win
    ensures forall j :: 0 <= j < |y.procs| ==> Credit(y.c) + ConnHeld(y.procs[j]) <= y.rc.win
    ensures y.data != [] ==> y.data[0].n <= y.rc.win
    ensures y.updates != [] ==> Credit(y.c) + IncFor(Conn)(y.updates[0]) <= y.rc.win
  {
    SumNonNegative(ConnHeld, y.procs);
    SumNonNegative(Length, y.data);
    SumNonNegative(IncFor(Conn), y.updates);
    forall j | 0 <= j < |y.procs| ensures Credit(y.c) + ConnHeld(y.procs[j]) <= y.rc.win {
      SumPart(ConnHeld, y.procs, j);
    }
    if y.data != [] { SumPart(Length, y.data, 0); }
    if y.updates != [] { SumPart(IncFor(Conn), y.updates, 0); }
  }

  lemma {:induction false} StreamParts(t: Rule, y: System, i: nat)
    requires HalfRule(t) && Inv(t, y) && i < |y.s|
    ensures Credit(y.s[i].flow) <= y.r[i].flow.win
    ensures forall j :: 0 <= j < |y.procs| ==> Credit(y.s[i].flow) + HeldOf(i)(y.procs[j]) <= y.r[i].flow.win
    ensures y.data != [] ==> LengthOf(i)(y.data[0]) <= y.r[i].flow.win
    ensures y.updates != [] ==> Credit(y.s[i].flow) + IncFor(Stream(i))(y.updates[0]) <= y.r[i].flow.win
  {
    SumNonNegative(HeldOf(i), y.procs);
    SumNonNegative(LengthOf(i), y.data);
    SumNonNegative(IncFor(Stream(i)), y.updates);
    forall j | 0 <= j < |y.procs| ensures Credit(y.s[i].flow) + HeldOf(i)(y.procs[j]) <= y.r[i].flow.win {
      SumPart(HeldOf(i), y.procs, j);
    }
    if y.data != [] { SumPart(LengthOf(i), y.data, 0); }
    if y.updates != [] { SumPart(IncFor(Stream(i)), y.updates, 0); }
  }

  // ----- Every step keeps the invariant

  /** Balance moves with the receivers' windows. */
  lemma {:induction false} Rebalance(t: Rule, y: System, y': System)
    requires Inv(t, y) && |y'.s| == |y'.r| == |y.s|
    requires ConnSum(y') - ConnSum(y) == y'.rc.win - y.rc.win
    requires forall i :: 0 <= i < |y.s| ==>
      StreamSum(y', i) - StreamSum(y, i) <= y'.r[i].flow.win - y.r[i].flow.win
    requires forall i :: 0 <= i < |y.s| && y'.s[i].live && y'.r[i].live ==>
      y.s[i].live && y.r[i].live && StreamSum(y', i) - StreamSum(y, i) == y'.r[i].flow.win - y.r[i].flow.win
    requires Unreturned(y'.rc) - Unreturned(y.rc) == Sum(Outstanding, y'.r) + y'.discard - Sum(Outstanding, y.r) - y.discard
    ensures Balanced(y')
  {
  }

  /** Nothing refers to a stream before it is opened. */
  lemma {:induction false} FreshSums(t: Rule, y: System)
    requires WellFormed(t, y)
    ensures Sum(HeldOf(|y.s|), y.procs) == Sum(LengthOf(|y.s|), y.data) == Sum(IncFor(Stream(|y.s|)), y.updates) == 0
  {
    SumZero(HeldOf(|y.s|), y.procs);
    SumZero(LengthOf(|y.s|), y.data);
    SumZero(IncFor(Stream(|y.s|)), y.updates);
  }

  lemma {:induction false} OpenKeeps(t: Rule, y: System, w: int)
    requires HalfRule(t) && Inv(t, y) && Enabled(y, Open(w))
    ensures Inv(t, Next(t, y, Open(w)))
  {
    InitialGood(t, w);
    var f := UpdateSend(Send(0, None), w, true);
    OpenedWellFormed(t, y, SendStream(f, true, true), RecvStream(Initial(w), true));
    OpenedBalanced(t, y, SendStream(f, true, true), RecvStream(Initial(w), true));
  }

  function Opened(y: System, s: SendStream, r: RecvStream): (y': System) {
    y.(s := y.s + [s], r := y.r + [r])
  }

  lemma {:induction false} OpenedWellFormed(t: Rule, y: System, s: SendStream, r: RecvStream)
    requires WellFormed(t, y) && SendOk(s.flow) && s.known && Good(t, r.flow)
    ensures WellFormed(t, Opened(y, s, r))
  {
  }

  lemma {:induction false} OpenedSum(t: Rule, y: System, s: SendStream, r: RecvStream)
    requires WellFormed(t, y)
    ensures StreamSum(Opened(y, s, r), |y.s|) == Credit(s.flow)
  {
    FreshSums(t, y);
  }

  lemma {:induction false} OpenedBalanced(t: Rule, y: System, s: SendStream, r: RecvStream)
    requires Inv(t, y) && Credit(s.flow) == r.flow.win && Outstanding(r) == 0
    ensures Balanced(Opened(y, s, r))
  {
    var y' := Opened(y, s, r);
    OpenedSum(t, y, s, r);
    SumAppend(Outstanding, y.r, r);
    assert ConnSum(y') == ConnSum(y);
    forall i | 0 <= i < |y'.s|
      ensures StreamSum(y', i) <= y'.r[i].flow.win
      ensures y'.s[i].live && y'.r[i].live ==> StreamSum(y', i) == y'.r[i].flow.win
    {
      if i < |y.s| { OpenedOld(y, s, r, i); }
    }
  }

  lemma {:induction false} OpenedOld(y: System, s: SendStream, r: RecvStream, i: nat)
    requires i < |y.s| == |y.r|
    ensures var y' := Opened(y, s, r);
      StreamSum(y', i) == StreamSum(y, i) && y'.r[i] == y.r[i] && y'.s[i] == y.s[i]
  {
  }

  lemma {:induction false} SpawnKeeps(t: Rule, y: System, i: nat)
    requires HalfRule(t) && Inv(t, y) && i < |y.s|
    ensures Inv(t, y.(procs := y.procs + [Proc(i, Idle)]))
  {
    var p := Proc(i, Idle);
    var y' := y.(procs := y.procs + [p]);
    SumAppend(ConnHeld, y.procs, p);
    forall k | 0 <= k < |y.s| ensures StreamSum(y', k) == StreamSum(y, k) {
      SumAppend(HeldOf(k), y.procs, p);
    }
    Rebalance(t, y, y');
  }

  lemma {:induction false} PhaseWellFormed(t: Rule, y: System, j: nat, ph: Phase)
    requires WellFormed(t, y) && j < |y.procs| && ProcOk(y.procs[j].(phase := ph), |y.s|)
    ensures WellFormed(t, WithPhase(y, j, ph))
  {
  }

  lemma {:induction false} FlowWellFormed(t: Rule, y: System, i: nat, f: Send)
    requires WellFormed(t, y) && i < |y.s| && SendOk(f)
    ensures WellFormed(t, WithFlow(y, i, f))
  {
  }

  lemma {:induction false} AnnounceWellFormed(t: Rule, y: System, x: Target, inc: int)
    requires WellFormed(t, y) && TargetOk(x, |y.s|)
    ensures WellFormed(t, y.(updates := Announce(y.updates, x, inc)))
  {
  }

  lemma {:induction false} WindowWellFormed(t: Rule, y: System, i: nat, x: RecvStream)
    requires WellFormed(t, y) && i < |y.r| && Good(t, x.flow)
    ensures WellFormed(t, y.(r := y.r[i := x]))
  {
  }

  lemma {:induction false} DataWellFormed(t: Rule, y: System, d: Data)
    requires WellFormed(t, y) && d.n > 0 && d.stream < |y.s|
    ensures WellFormed(t, y.(data := y.data + [d]))
  {
  }

  /** Credit moves between a stream and one of its allocators. */
  lemma {:induction false} StreamMove(t: Rule, y: System, j: nat, f: Send, ph: Phase)
    requires HalfRule(t) && Inv(t, y) && j < |y.procs| && SendOk(f)
    requires var p, p' := y.procs[j], y.procs[j].(phase := ph);
      && ProcOk(p', |y.s|) && ConnHeld(p') == ConnHeld(p)
      && Credit(f) + Held(p') == Credit(y.s[p.stream].flow) + Held(p)
    ensures Inv(t, WithPhase(WithFlow(y, y.procs[j].stream, f), j, ph))
  {
    var i := y.procs[j].stream;
    var y1 := WithFlow(y, i, f);
    FlowWellFormed(t, y, i, f);
    PhaseWellFormed(t, y1, j, ph);
    FlowSums(y, i, f);
    PhaseSums(y1, j, ph);
    Rebalance(t, y, WithPhase(y1, j, ph));
  }

  /** Credit moves between the connection and an allocator; an allocator of a stream that is
      closed here may drop the stream's credit. */
  lemma {:induction false} ConnMove(t: Rule, y: System, j: nat, c: Send, ph: Phase)
    requires HalfRule(t) && Inv(t, y) && j < |y.procs| && SendOk(c)
    requires var p, p' := y.procs[j], y.procs[j].(phase := ph);
      && ProcOk(p', |y.s|) && Credit(c) + ConnHeld(p') == Credit(y.c) + ConnHeld(p)
      && (Held(p') == Held(p) || (Held(p') <= Held(p) && !y.s[p.stream].live))
    ensures Inv(t, WithPhase(y.(c := c), j, ph))
  {
    var y1 := y.(c := c);
    PhaseWellFormed(t, y1, j, ph);
    assert forall i :: 0 <= i < |y.s| ==> StreamSum(y1, i) == StreamSum(y, i);
    PhaseSums(y1, j, ph);
    Rebalance(t, y, WithPhase(y1, j, ph));
  }

  lemma {:induction false} BeginKeeps(t: Rule, y: System, j: nat, n: int)
    requires HalfRule(t) && Inv(t, y) && Enabled(y, Begin(j, n))
    ensures Inv(t, Next(t, y, Begin(j, n)))
  {
    var f := y.s[y.procs[j].stream].flow;
    UpdateSendConserves(f, 0, false);
    StreamMove(t, y, j, UpdateSend(f, 0, false), AwaitStream(n));
  }

  lemma {:induction false} TakeStreamKeeps(t: Rule, y: System, j: nat)
    requires HalfRule(t) && Inv(t, y) && Enabled(y, TakeStream(j))
    ensures Inv(t, Next(t, y, TakeStream(j)))
  {
    var f := y.s[y.procs[j].stream].flow;
    StreamMove(t, y, j, Send(f.win, None), HasStream(y.procs[j].phase.n, f.ch.value));
  }

  lemma {:induction false} PokeConnKeeps(t: Rule, y: System, j: nat)
    requires HalfRule(t) && Inv(t, y) && Enabled(y, PokeConn(j))
    ensures Inv(t, Next(t, y, PokeConn(j)))
  {
    UpdateSendConserves(y.c, 0, false);
    ConnMove(t, y, j, UpdateSend(y.c, 0, false), AwaitConn(y.procs[j].phase.n, y.procs[j].phase.sw));
  }

  lemma {:induction false} TakeConnKeeps(t: Rule, y: System, j: nat)
    requires HalfRule(t) && Inv(t, y) && Enabled(y, TakeConn(j))
    ensures Inv(t, Next(t, y, TakeConn(j)))
  {
    ConnMove(t, y, j, Send(y.c.win, None), HasBoth(y.procs[j].phase.n, y.procs[j].phase.sw, y.c.ch.value));
  }

  lemma {:induction false} AbortKeeps(t: Rule, y: System, j: nat)
    requires HalfRule(t) && Inv(t, y) && Enabled(y, Abort(j))
    ensures Inv(t, Next(t, y, Abort(j)))
  {
    ConnMove(t, y, j, if y.procs[j].phase.AwaitConn? then Unpark(y.c) else y.c, Idle);
  }

  /** Giving back what was not allocated never trips the overflow guard. */
  lemma {:induction false} RemaindersAccepted(t: Rule, y: System, j: nat)
    requires HalfRule(t) && Inv(t, y) && j < |y.procs|
    ensures var p := y.procs[j];
      && (p.phase.HasBoth? ==> forall x :: x <= p.phase.sw ==> !Refuses(y.s[p.stream].flow, x))
      && (p.phase.StreamSettled? ==> forall x :: x <= p.phase.cw ==> !Refuses(y.c, x))
  {
    var p := y.procs[j];
    ConnParts(t, y);
    StreamParts(t, y, p.stream);
    assert HeldOf(p.stream)(p) == Held(p);
  }

  lemma {:induction false} SettleStreamKeeps(t: Rule, y: System, j: nat)
    requires HalfRule(t) && Inv(t, y) && Enabled(y, SettleStream(j))
    ensures Inv(t, Next(t, y, SettleStream(j)))
  {
    SettleStreamMoves(t, y, j);
  }

  lemma {:induction false} SettleStreamMoves(t: Rule, y: System, j: nat)
    requires HalfRule(t) && Inv(t, y) && Enabled(y, SettleStream(j))
    ensures var i, ph := y.procs[j].stream, y.procs[j].phase;
      var k, f := Allowed(ph.n, ph.sw, ph.cw), y.s[i].flow;
      Inv(t, WithPhase(WithFlow(y, i, if k < ph.sw then UpdateSend(f, ph.sw - k, false) else f), j, StreamSettled(ph.n, k, ph.cw)))
  {
    var ph := y.procs[j].phase;
    var k, f := Allowed(ph.n, ph.sw, ph.cw), y.s[y.procs[j].stream].flow;
    RemaindersAccepted(t, y, j);
    UpdateSendConserves(f, ph.sw - k, false);
    StreamMove(t, y, j, if k < ph.sw then UpdateSend(f, ph.sw - k, false) else f, StreamSettled(ph.n, k, ph.cw));
  }

  lemma {:induction false} SettleConnKeeps(t: Rule, y: System, j: nat)
    requires HalfRule(t) && Inv(t, y) && Enabled(y, SettleConn(j))
    ensures Inv(t, Next(t, y, SettleConn(j)))
  {
    var ph := y.procs[j].phase;
    RemaindersAccepted(t, y, j);
    UpdateSendConserves(y.c, ph.cw - ph.k, false);
    ConnMove(t, y, j, if ph.k < ph.cw then UpdateSend(y.c, ph.cw - ph.k, false) else y.c, Allocated(ph.n, ph.k));
  }

  lemma {:induction false} TransmitKeeps(t: Rule, y: System, j: nat)
    requires HalfRule(t) && Inv(t, y) && Enabled(y, Transmit(j))
    ensures Inv(t, Next(t, y, Transmit(j)))
  {
    TransmitMoves(t, y, j, Data(y.procs[j].stream, y.procs[j].phase.k));
  }

  lemma {:induction false} TransmitMoves(t: Rule, y: System, j: nat, d: Data)
    requires HalfRule(t) && Inv(t, y) && j < |y.procs| && y.procs[j].phase.Allocated?
    requires d == Data(y.procs[j].stream, y.procs[j].phase.k)
    ensures Inv(t, WithPhase(y.(data := y.data + [d]), j, Idle))
  {
    var y1 := y.(data := y.data + [d]);
    TransmitSums(y, j, d);
    DataWellFormed(t, y, d);
    PhaseWellFormed(t, y1, j, Idle);
    Rebalance(t, y, WithPhase(y1, j, Idle));
  }

  lemma {:induction false} TransmitSums(y: System, j: nat, d: Data)
    requires j < |y.procs| && y.procs[j].phase.Allocated? && d == Data(y.procs[j].stream, y.procs[j].phase.k)
    ensures var y' := WithPhase(y.(data := y.data + [d]), j, Idle);
      ConnSum(y') == ConnSum(y) && forall i :: 0 <= i < |y.s| ==> StreamSum(y', i) == StreamSum(y, i)
  {
    SentSums(y, d);
    PhaseSums(y.(data := y.data + [d]), j, Idle);
  }

  lemma {:induction false} SentSums(y: System, d: Data)
    ensures var y1 := y.(data := y.data + [d]);
      && ConnSum(y1) == ConnSum(y) + d.n
      && forall i :: 0 <= i < |y.s| ==> StreamSum(y1, i) == StreamSum(y, i) + LengthOf(i)(d)
  {
    var y1 := y.(data := y.data + [d]);
    SumAppend(Length, y.data, d);
    forall i | 0 <= i < |y.s| ensures StreamSum(y1, i) == StreamSum(y, i) + LengthOf(i)(d) {
      SumAppend(LengthOf(i), y.data, d);
    }
  }

  /** A DATA frame never overruns the connection's window, nor that of a live stream. */
  lemma {:induction false} NoOverrun(t: Rule, y: System)
    requires HalfRule(t) && Inv(t, y) && y.data != []
    ensures var d := y.data[0];
      && Consume(y.rc, d.n).Ok?
      && d.stream < |y.r| && (y.r[d.stream].live ==> Consume(y.r[d.stream].flow, d.n).Ok?)
  {
    ConnParts(t, y);
    StreamParts(t, y, y.data[0].stream);
  }

  lemma {:induction false} ReceiveWellFormed(t: Rule, y: System)
    requires HalfRule(t) && Inv(t, y) && Enabled(y, Receive)
    ensures WellFormed(t, Next(t, y, Receive))
  {
    var d := y.data[0];
    ConnParts(t, y);
    StreamParts(t, y, d.stream);
    ReceiveNeverFails(t, y.rc, d.n);
    ReceiveNeverFails(t, y.r[d.stream].flow, d.n);
  }

  lemma {:induction false} ReceiveKeeps(t: Rule, y: System)
    requires HalfRule(t) && Inv(t, y) && Enabled(y, Receive)
    ensures Inv(t, Next(t, y, Receive))
  {
    ReceiveWellFormed(t, y);
    ReceiveBalanced(t, y, Next(t, y, Receive));
  }

  lemma {:induction false} ReceiveBalanced(t: Rule, y: System, y': System)
    requires HalfRule(t) && Inv(t, y) && Enabled(y, Receive)
    requires var d, x := y.data[0], y.r[y.data[0].stream];
      y' == y.(data := y.data[1..], rc := Consume(y.rc, d.n).r,
               r := if x.live then y.r[d.stream := x.(flow := Consume(x.flow, d.n).r)] else y.r,
               discard := if x.live then y.discard else y.discard + d.n)
    ensures Balanced(y')
  {
    var d := y.data[0];
    var x := y.r[d.stream];
    ReceiveWellFormed(t, y);
    SumTail(Length, y.data);
    forall i | 0 <= i < |y.s| ensures StreamSum(y', i) == StreamSum(y, i) - LengthOf(i)(d) {
      SumTail(LengthOf(i), y.data);
    }
    if x.live {
      SumUpdate(Outstanding, y.r, d.stream, x.(flow := Consume(x.flow, d.n).r));
    }
    Rebalance(t, y, y');
  }

  /** Returning bytes a stream owes never fails. */
  lemma {:induction false} OwedByConn(t: Rule, y: System, i: nat)
    requires HalfRule(t) && Inv(t, y) && i < |y.r| && y.r[i].live
    ensures Unreturned(y.r[i].flow) <= Unreturned(y.rc)
  {
    assert Outstanding(y.r[i]) == Unreturned(y.r[i].flow);
    SumPart(Outstanding, y.r, i);
  }

  lemma {:induction false} GiveBackWellFormed(t: Rule, y: System, i: nat, n: int, live: bool)
    requires HalfRule(t) && Inv(t, y) && i < |y.r| && y.r[i].live && 0 <= n <= Unreturned(y.r[i].flow)
    ensures var c, s := Return(t, y.rc, n), Return(t, y.r[i].flow, n);
      && c.Ok? && s.Ok? && c.inc >= 0 && s.inc >= 0
      && c.r.win == y.rc.win + c.inc && Unreturned(c.r) == Unreturned(y.rc) - n
      && s.r.win == y.r[i].flow.win + s.inc && Unreturned(s.r) == Unreturned(y.r[i].flow) - n
    ensures WellFormed(t, GiveBack(t, y, i, n, live))
  {
    OwedByConn(t, y, i);
    ReceiveNeverFails(t, y.rc, n);
    ReceiveNeverFails(t, y.r[i].flow, n);
    var c, s := Return(t, y.rc, n), Return(t, y.r[i].flow, n);
    var y1 := y.(rc := c.r);
    WindowWellFormed(t, y1, i, RecvStream(s.r, live));
    var y2 := y1.(r := y.r[i := RecvStream(s.r, live)]);
    AnnounceWellFormed(t, y2, Conn, c.inc);
    AnnounceWellFormed(t, y2.(updates := Announce(y.updates, Conn, c.inc)), Stream(i), s.inc);
  }

  lemma {:induction false} GiveBackSums(t: Rule, y: System, i: nat, n: int, live: bool)
    requires i < |y.r| == |y.s| && Return(t, y.rc, n).Ok? && Return(t, y.r[i].flow, n).Ok?
    requires Return(t, y.rc, n).inc >= 0 && Return(t, y.r[i].flow, n).inc >= 0
    ensures var y' := GiveBack(t, y, i, n, live);
      && ConnSum(y') == ConnSum(y) + Return(t, y.rc, n).inc
      && forall k :: 0 <= k < |y.s| ==>
           StreamSum(y', k) == StreamSum(y, k) + (if k == i then Return(t, y.r[i].flow, n).inc else 0)
  {
    var y' := GiveBack(t, y, i, n, live);
    var c, s := Return(t, y.rc, n), Return(t, y.r[i].flow, n);
    var u := Announce(y.updates, Conn, c.inc);
    AnnounceSums(y.updates, Conn, c.inc, Conn);
    AnnounceSums(u, Stream(i), s.inc, Conn);
    forall k | 0 <= k < |y.s| ensures StreamSum(y', k) == StreamSum(y, k) + (if k == i then s.inc else 0) {
      AnnounceSums(y.updates, Conn, c.inc, Stream(k));
      AnnounceSums(u, Stream(i), s.inc, Stream(k));
    }
  }

  lemma {:induction false} GiveBackKeeps(t: Rule, y: System, i: nat, n: int, live: bool)
    requires HalfRule(t) && Inv(t, y) && i < |y.r| && y.r[i].live && 0 <= n <= Unreturned(y.r[i].flow)
    requires live || n == Unreturned(y.r[i].flow)
    ensures Return(t, y.rc, n).Ok? && Return(t, y.r[i].flow, n).Ok?
    ensures Inv(t, GiveBack(t, y, i, n, live))
  {
    GiveBackWellFormed(t, y, i, n, live);
    GiveBackSums(t, y, i, n, live);
    var s := Return(t, y.r[i].flow, n);
    assert Outstanding(y.r[i]) == Unreturned(y.r[i].flow);
    assert Outstanding(RecvStream(s.r, live)) == Unreturned(y.r[i].flow) - n;
    SumUpdate(Outstanding, y.r, i, RecvStream(s.r, live));
    Rebalance(t, y, GiveBack(t, y, i, n, live));
  }

  lemma {:induction false} ConnReturnKeeps(t: Rule, y: System, x: RecvResult, discard: int)
    requires HalfRule(t) && Inv(t, y) && x.Ok? && Good(t, x.r) && x.inc >= 0 && x.r.win == y.rc.win + x.inc
    requires 0 <= discard && Unreturned(x.r) == Unreturned(y.rc) - (y.discard - discard)
    ensures Inv(t, y.(rc := x.r, discard := discard, updates := Announce(y.updates, Conn, x.inc)))
  {
    var y' := y.(rc := x.r, discard := discard, updates := Announce(y.updates, Conn, x.inc));
    AnnounceSums(y.updates, Conn, x.inc, Conn);
    forall k | 0 <= k < |y.s| ensures StreamSum(y', k) == StreamSum(y, k) {
      AnnounceSums(y.updates, Conn, x.inc, Stream(k));
    }
  }

  lemma {:induction false} GrowStreamKeeps(t: Rule, y: System, i: nat, delta: int)
    requires HalfRule(t) && Inv(t, y) && Enabled(y, GrowStream(i, delta))
    ensures Inv(t, Next(t, y, GrowStream(i, delta)))
  {
    GrowGood(t, y.r[i].flow, delta);
    StreamAnnounceKeeps(t, y, i, Grow(t, y.r[i].flow, delta));
  }

  lemma {:induction false} StreamAnnounceKeeps(t: Rule, y: System, i: nat, x: RecvResult)
    requires HalfRule(t) && Inv(t, y) && i < |y.r| && y.r[i].live
    requires x.Ok? && Good(t, x.r) && x.inc >= 0 && x.r.win == y.r[i].flow.win + x.inc
    requires Unreturned(x.r) == Unreturned(y.r[i].flow)
    ensures Inv(t, y.(r := y.r[i := y.r[i].(flow := x.r)], updates := Announce(y.updates, Stream(i), x.inc)))
  {
    var y' := y.(r := y.r[i := y.r[i].(flow := x.r)], updates := Announce(y.updates, Stream(i), x.inc));
    WindowWellFormed(t, y, i, y.r[i].(flow := x.r));
    AnnounceWellFormed(t, y.(r := y.r[i := y.r[i].(flow := x.r)]), Stream(i), x.inc);
    SumUpdate(Outstanding, y.r, i, y.r[i].(flow := x.r));
    AnnounceSums(y.updates, Stream(i), x.inc, Conn);
    AnnouncedSums(y, y', i, x.inc);
    Rebalance(t, y, y');
  }

  lemma {:induction false} AnnouncedSums(y: System, y': System, i: nat, inc: int)
    requires inc >= 0 && y'.s == y.s && y'.procs == y.procs && y'.data == y.data && y'.updates == Announce(y.updates, Stream(i), inc)
    ensures forall k :: 0 <= k < |y.s| ==> StreamSum(y', k) == StreamSum(y, k) + (if k == i then inc else 0)
  {
    forall k | 0 <= k < |y.s| ensures StreamSum(y', k) == StreamSum(y, k) + (if k == i then inc else 0) {
      AnnounceSums(y.updates, Stream(i), inc, Stream(k));
    }
  }

  lemma {:induction false} CloseSenderKeeps(t: Rule, y: System, i: nat, gone: bool)
    requires HalfRule(t) && Inv(t, y) && Enabled(y, CloseSender(i, gone))
    ensures Inv(t, Next(t, y, CloseSender(i, gone)))
  {
    var y' := Next(t, y, CloseSender(i, gone));
    forall k | 0 <= k < |y.s| ensures StreamSum(y', k) == StreamSum(y, k) - (if k == i then Credit(y.s[i].flow) else 0) {
    }
  }

  lemma {:induction false} PopUpdate(t: Rule, y: System)
    requires WellFormed(t, y) && y.updates != []
    ensures var y1, u := y.(updates := y.updates[1..]), y.updates[0];
      && WellFormed(t, y1) && ConnSum(y1) == ConnSum(y) - IncFor(Conn)(u)
      && forall k :: 0 <= k < |y.s| ==> StreamSum(y1, k) == StreamSum(y, k) - IncFor(Stream(k))(u)
  {
    var y1, u := y.(updates := y.updates[1..]), y.updates[0];
    SumTail(IncFor(Conn), y.updates);
    forall k | 0 <= k < |y.s| ensures StreamSum(y1, k) == StreamSum(y, k) - IncFor(Stream(k))(u) {
      SumTail(IncFor(Stream(k)), y.updates);
    }
  }

  /** An increment in flight is always accepted. */
  lemma {:induction false} UpdateAccepted(t: Rule, y: System)
    requires HalfRule(t) && Inv(t, y) && y.updates != []
    ensures var u := y.updates[0];
      match u.target
      case Conn => !Refuses(y.c, u.inc)
      case Stream(i) => !Refuses(y.s[i].flow, u.inc)
  {
    var u := y.updates[0];
    if u.target == Conn { ConnParts(t, y); } else { StreamParts(t, y, u.target.i); }
  }

  lemma {:induction false} ApplyUpdateKeeps(t: Rule, y: System)
    requires HalfRule(t) && Inv(t, y) && Enabled(y, ApplyUpdate)
    ensures Inv(t, Next(t, y, ApplyUpdate))
  {
    var u := y.updates[0];
    if u.target == Conn {
      ApplyToConn(t, y);
    } else if u.target.i < |y.s| && y.s[u.target.i].known {
      ApplyToStream(t, y, u.target.i);
    } else {
      PopUpdate(t, y);
      Rebalance(t, y, y.(updates := y.updates[1..]));
    }
  }

  lemma {:induction false} ApplyToConn(t: Rule, y: System)
    requires HalfRule(t) && Inv(t, y) && y.updates != [] && y.updates[0].target == Conn
    ensures Inv(t, Next(t, y, ApplyUpdate))
  {
    ApplyToConnMoves(t, y);
  }

  lemma {:induction false} ApplyToConnMoves(t: Rule, y: System)
    requires HalfRule(t) && Inv(t, y) && y.updates != [] && y.updates[0].target == Conn
    ensures Inv(t, y.(updates := y.updates[1..], c := UpdateSend(y.c, y.updates[0].inc, false)))
  {
    var u, y1 := y.updates[0], y.(updates := y.updates[1..]);
    UpdateAccepted(t, y);
    UpdateSendConserves(y.c, u.inc, false);
    PopUpdate(t, y);
    var y' := y1.(c := UpdateSend(y.c, u.inc, false));
    assert forall k :: 0 <= k < |y.s| ==> StreamSum(y', k) == StreamSum(y1, k);
    Rebalance(t, y, y');
  }

  lemma {:induction false} ApplyToStream(t: Rule, y: System, i: nat)
    requires HalfRule(t) && Inv(t, y) && y.updates != [] && y.updates[0].target == Stream(i) && i < |y.s| && y.s[i].known
    ensures Inv(t, Next(t, y, ApplyUpdate))
  {
    ApplyToStreamMoves(t, y, i);
  }

  lemma {:induction false} ApplyToStreamMoves(t: Rule, y: System, i: nat)
    requires HalfRule(t) && Inv(t, y) && y.updates != [] && y.updates[0].target == Stream(i) && i < |y.s| && y.s[i].known
    ensures Inv(t, WithFlow(y.(updates := y.updates[1..]), i, UpdateSend(y.s[i].flow, y.updates[0].inc, false)))
  {
    var u, y1 := y.updates[0], y.(updates := y.updates[1..]);
    var f := UpdateSend(y.s[i].flow, u.inc, false);
    UpdateAccepted(t, y);
    UpdateSendConserves(y.s[i].flow, u.inc, false);
    assert SendOk(f) && Credit(f) == Credit(y.s[i].flow) + u.inc;
    PopUpdate(t, y);
    FlowSums(y1, i, f);
    FlowWellFormed(t, y1, i, f);
    Rebalance(t, y, WithFlow(y1, i, f));
  }

  // ----- Whole runs

  lemma {:induction false} StepKeeps(t: Rule, y: System, a: Action)
    requires HalfRule(t) && Inv(t, y) && Enabled(y, a)
    ensures Inv(t, Next(t, y, a))
  {
    match a
    case Open(w) => OpenKeeps(t, y, w);
    case Spawn(i) => SpawnKeeps(t, y, i);
    case Begin(j, n) => BeginKeeps(t, y, j, n);
    case TakeStream(j) => TakeStreamKeeps(t, y, j);
    case PokeConn(j) => PokeConnKeeps(t, y, j);
    case TakeConn(j) => TakeConnKeeps(t, y, j);
    case Abort(j) => AbortKeeps(t, y, j);
    case SettleStream(j) => SettleStreamKeeps(t, y, j);
    case SettleConn(j) => SettleConnKeeps(t, y, j);
    case Transmit(j) => TransmitKeeps(t, y, j);
    case Receive => ReceiveKeeps(t, y);
    case ReturnBytes(i, n) => GiveBackKeeps(t, y, i, n, true);
    case ReturnDiscarded(n) => DiscardKeeps(t, y, n);
    case GrowConn(delta) => GrowConnKeeps(t, y, delta);
    case GrowStream(i, delta) => GrowStreamKeeps(t, y, i, delta);
    case CloseReceiver(i) => CloseReceiverKeeps(t, y, i);
    case CloseSender(i, gone) => CloseSenderKeeps(t, y, i, gone);
    case ApplyUpdate => ApplyUpdateKeeps(t, y);
  }

  lemma {:induction false} DiscardKeeps(t: Rule, y: System, n: int)
    requires HalfRule(t) && Inv(t, y) && Enabled(y, ReturnDiscarded(n))
    ensures Return(t, y.rc, n).Ok? && Inv(t, Next(t, y, ReturnDiscarded(n)))
  {
    SumNonNegative(Outstanding, y.r);
    ReceiveNeverFails(t, y.rc, n);
    ConnReturnKeeps(t, y, Return(t, y.rc, n), y.discard - n);
  }

  lemma {:induction false} GrowConnKeeps(t: Rule, y: System, delta: int)
    requires HalfRule(t) && Inv(t, y) && Enabled(y, GrowConn(delta))
    ensures Inv(t, Next(t, y, GrowConn(delta)))
  {
    GrowGood(t, y.rc, delta);
    ConnReturnKeeps(t, y, Grow(t, y.rc, delta), y.discard);
    assert y.(discard := y.discard) == y;
  }

  lemma {:induction false} CloseReceiverKeeps(t: Rule, y: System, i: nat)
    requires HalfRule(t) && Inv(t, y) && Enabled(y, CloseReceiver(i))
    ensures var n := Unreturned(y.r[i].flow); Return(t, y.rc, n).Ok? && Return(t, y.r[i].flow, n).Ok?
    ensures Inv(t, Next(t, y, CloseReceiver(i)))
  {
    assert Good(t, y.r[i].flow);
    GiveBackKeeps(t, y, i, Unreturned(y.r[i].flow), false);
  }

  // ----- Returning after the close

  /** The reader returns n bytes of a DATA frame it still holds: to the connection first, and to the
      stream if that succeeds. A closed stream has no bytes left to return. */
  function LateReturn(t: Rule, y: System, i: nat, n: int): (y': System)
    requires i < |y.r|
  {
    var c := Return(t, y.rc, n);
    if c.Err? then y
    else
      var s := Return(t, y.r[i].flow, n);
      var u := Announce(y.updates, Conn, c.inc);
      y.(rc := c.r, r := y.r[i := y.r[i].(flow := s.r)], updates := if s.Ok? then Announce(u, Stream(i), s.inc) else u)
  }

  /** What the connection owes is what its live streams and the discarded frames owe. */
  predicate Nested(y: System) {
    Unreturned(y.rc) == Sum(Outstanding, y.r) + y.discard
  }

  /** Bytes of a stream that is already closed have been returned by closing it. Returned again, they
      go to the account of other streams: nesting is kept if and only if the stream is live, there
      is nothing to return, or the connection owes less in all and refuses. */
  lemma {:induction false} LateReturnIff(t: Rule, y: System, i: nat, n: int)
    requires HalfRule(t) && Inv(t, y) && i < |y.r| && n >= 0 && (y.r[i].live ==> n <= Unreturned(y.r[i].flow))
    ensures Nested(LateReturn(t, y, i, n)) <==> y.r[i].live || n == 0 || n > Unreturned(y.rc)
    ensures !y.r[i].live && 0 < n <= Unreturned(y.rc) ==>
      var y' := LateReturn(t, y, i, n); Unreturned(y'.rc) + n == Sum(Outstanding, y'.r) + y'.discard
  {
    ReceiveNeverFails(t, y.rc, n);
    ReceiveNeverFails(t, y.r[i].flow, n);
    if y.r[i].live { OwedByConn(t, y, i); }
    var x := y.r[i].(flow := Return(t, y.r[i].flow, n).r);
    LateOutstanding(t, y.r[i], n);
    SumUpdate(Outstanding, y.r, i, x);
  }

  lemma {:induction false} LateOutstanding(t: Rule, x: RecvStream, n: int)
    requires HalfRule(t) && Good(t, x.flow) && n >= 0 && (x.live ==> n <= Unreturned(x.flow))
    ensures Outstanding(x.(flow := Return(t, x.flow, n).r)) == Outstanding(x) - if x.live then n else 0
  {
    ReceiveNeverFails(t, x.flow, n);
  }

  /** A stream that owes n bytes is closed while the reader holds the frame with them, another
      stream owes as many, and the late return goes through: then closing the others cannot return
      all their bytes any more. */
  lemma {:induction false} ClosedThenReturned(t: Rule, y: System, i: nat, n: int)
    requires HalfRule(t) && Inv(t, y) && Enabled(y, CloseReceiver(i)) && 0 < n <= Unreturned(y.r[i].flow)
    requires Unreturned(y.rc) - Unreturned(y.r[i].flow) >= n
    ensures var y1 := Next(t, y, CloseReceiver(i));
      Inv(t, y1) && !Nested(LateReturn(t, y1, i, n))
      && Unreturned(LateReturn(t, y1, i, n).rc) < Sum(Outstanding, y1.r) + y1.discard
  {
    CloseReceiverKeeps(t, y, i);
    var y1 := Next(t, y, CloseReceiver(i));
    GiveBackWellFormed(t, y, i, Unreturned(y.r[i].flow), false);
    assert Unreturned(y1.rc) == Unreturned(y.rc) - Unreturned(y.r[i].flow);
    LateReturnIff(t, y1, i, n);
    ReceiveNeverFails(t, y1.rc, n);
  }

  ghost predicate IsRun(t: Rule, y: System, run: seq<Action>)
    decreases |run|
  {
    run == [] || (Enabled(y, run[0]) && IsRun(t, Next(t, y, run[0]), run[1..]))
  }

  ghost function After(t: Rule, y: System, run: seq<Action>): (y': System)
    requires IsRun(t, y, run)
    decreases |run|
  {
    if run == [] then y else After(t, Next(t, y, run[0]), run[1..])
  }

  /** The connection with its default windows and no stream yet. */
  function Start(): (y: System) {
    System(UpdateSend(Send(0, None), DEFAULT_WINDOW, true), [], [], [], [], Initial(DEFAULT_WINDOW), [], 0)
  }

  lemma {:induction false} RunKeeps(t: Rule, y: System, run: seq<Action>)
    requires HalfRule(t) && Inv(t, y) && IsRun(t, y, run)
    ensures Inv(t, After(t, y, run))
    decreases |run|
  {
    if run != [] {
      StepKeeps(t, y, run[0]);
      RunKeeps(t, Next(t, y, run[0]), run[1..]);
    }
  }

  /** In every reachable state credit is conserved, no DATA frame in flight overruns a window, and
      the connection's unreturned bytes are those of its live streams and of discarded frames. */
  lemma {:induction false} Conservation(run: seq<Action>)
    requires IsRun(Threshold, Start(), run)
    ensures Inv(Threshold, After(Threshold, Start(), run))
    ensures var y := After(Threshold, Start(), run);
      y.data != [] ==>
        && Consume(y.rc, y.data[0].n).Ok?
        && (y.r[y.data[0].stream].live ==> Consume(y.r[y.data[0].stream].flow, y.data[0].n).Ok?)
  {
    ThresholdIsRule();
    StartBalanced(Threshold);
    RunKeeps(Threshold, Start(), run);
    Overruns(Threshold, After(Threshold, Start(), run));
  }

  lemma {:induction false} StartBalanced(t: Rule)
    requires HalfRule(t)
    ensures Inv(t, Start())
  {
    InitialGood(t, DEFAULT_WINDOW);
    UpdateSendConserves(Send(0, None), DEFAULT_WINDOW, true);
  }

  lemma {:induction false} Overruns(t: Rule, y: System)
    requires HalfRule(t) && Inv(t, y)
    ensures y.data != [] ==>
      && Consume(y.rc, y.data[0].n).Ok?
      && (y.r[y.data[0].stream].live ==> Consume(y.r[y.data[0].stream].flow, y.data[0].n).Ok?)
  {
    if y.data != [] { NoOverrun(t, y); }
  }

  /** With nothing in flight and no allocator at work, both ends agree on every window. */
  lemma {:induction false} QuietWindowsAgree(t: Rule, y: System)
    requires Inv(t, y) && y.data == [] && y.updates == [] && (forall j :: 0 <= j < |y.procs| ==> y.procs[j].phase == Idle)
    ensures Credit(y.c) == y.rc.win
    ensures forall i :: 0 <= i < |y.s| && y.s[i].live && y.r[i].live ==> Credit(y.s[i].flow) == y.r[i].flow.win
  {
    SumZero(ConnHeld, y.procs);
    forall i | 0 <= i < |y.s| ensures Sum(HeldOf(i), y.procs) == 0 {
      SumZero(HeldOf(i), y.procs);
    }
  }

  /** A finished call has between 1 and the requested number of bytes, no more than it took from the
      connection; what is left of that goes back, and nothing else changes. */
  lemma {:induction false} AllocationBounds(t: Rule, y: System, j: nat)
    requires HalfRule(t) && Inv(t, y) && Enabled(y, SettleConn(j))
    ensures var y', ph := Next(t, y, SettleConn(j)), y.procs[j].phase;
      && y'.procs[j].phase == Allocated(ph.n, ph.k) && 1 <= ph.k <= ph.n && ph.k <= ph.cw
      && Credit(y'.c) == Credit(y.c) + (ph.cw - ph.k) && (ph.k == ph.cw ==> y'.c == y.c)
      && y' == WithPhase(y, j, y'.procs[j].phase).(c := y'.c)
  {
    SettleConnKeeps(t, y, j);
    RemaindersAccepted(t, y, j);
    UpdateSendConserves(y.c, y.procs[j].phase.cw - y.procs[j].phase.k, false);
  }

  /** The bytes allocated are the most that the request, the stream's credit and the connection's credit
      allow: one of the three, and none of them is smaller. The stream gets back what is left of its credit,
      and nothing else changes. */
  lemma {:induction false} AllocationExact(t: Rule, y: System, j: nat)
    requires HalfRule(t) && Inv(t, y) && Enabled(y, SettleStream(j))
    ensures var y', ph, i := Next(t, y, SettleStream(j)), y.procs[j].phase, y.procs[j].stream;
      && y'.procs[j].phase.StreamSettled?
      && var k := y'.procs[j].phase.k;
      && y'.procs[j].phase == StreamSettled(ph.n, k, ph.cw)
      && k <= ph.n && k <= ph.sw && k <= ph.cw && (k == ph.n || k == ph.sw || k == ph.cw)
      && Credit(y'.s[i].flow) == Credit(y.s[i].flow) + (ph.sw - k)
      && (k == ph.sw ==> y'.s[i].flow == y.s[i].flow)
      && y' == WithFlow(WithPhase(y, j, y'.procs[j].phase), i, y'.s[i].flow)
  {
    RemaindersAccepted(t, y, j);
    UpdateSendConserves(y.s[y.procs[j].stream].flow, y.procs[j].phase.sw - Allowed(y.procs[j].phase.n, y.procs[j].phase.sw, y.procs[j].phase.cw), false);
  }

  /** The process whose call a step belongs to. */
  function Caller(a: Action): (j: Option<nat>) {
    match a
    case Begin(j, _) => Some(j)
    case TakeStream(j) => Some(j)
    case PokeConn(j) => Some(j)
    case TakeConn(j) => Some(j)
    case Abort(j) => Some(j)
    case SettleStream(j) => Some(j)
    case SettleConn(j) => Some(j)
    case Transmit(j) => Some(j)
    case _ => None
  }

  /** Steps of others do not touch a call. */
  lemma {:induction false} CallKept(t: Rule, y: System, j: nat, run: seq<Action>)
    requires j < |y.procs| && IsRun(t, y, run) && forall a :: a in run ==> Caller(a) != Some(j)
    ensures j < |After(t, y, run).procs| && After(t, y, run).procs[j] == y.procs[j]
    decreases |run|
  {
    if run != [] {
      StepOfOthers(t, y, j, run[0]);
      CallKept(t, Next(t, y, run[0]), j, run[1..]);
    }
  }

  lemma {:induction false} StepOfOthers(t: Rule, y: System, j: nat, a: Action)
    requires j < |y.procs| && Enabled(y, a) && Caller(a) != Some(j)
    ensures j < |Next(t, y, a).procs| && Next(t, y, a).procs[j] == y.procs[j]
  {
  }

  /** The bytes a call asks for. */
  function Request(ph: Phase): (n: int) {
    match ph
    case Idle => 0
    case AwaitStream(n) => n
    case HasStream(n, _) => n
    case AwaitConn(n, _) => n
    case HasBoth(n, _, _) => n
    case StreamSettled(n, _, _) => n
    case Allocated(n, _) => n
  }

  /** A call asks for the same number of bytes from its begin to its end, and takes all that is parked:
      at first from the stream, keeping it while it waits, and then from the connection. */
  lemma {:induction false} CallTakes(t: Rule, y: System, j: nat, a: Action)
    requires Enabled(y, a) && Caller(a) == Some(j)
    ensures var y', ph, i := Next(t, y, a), y.procs[j].phase, y.procs[j].stream;
      var ph' := y'.procs[j].phase;
      && y'.procs[j].stream == i
      && (a.Begin? ==> Request(ph') == a.n && Held(y'.procs[j]) == 0 && ConnHeld(y'.procs[j]) == 0)
      && (a.Abort? || a.Transmit? ==> ph' == Idle)
      && (a.Abort? ==> y'.data == y.data && (ph.AwaitConn? ==> y'.c.ch == None && Credit(y'.c) == Credit(y.c)))
      && (!a.Begin? && !a.Abort? && !a.Transmit? ==> Request(ph') == Request(ph))
      && (a.TakeStream? ==> Some(Held(y'.procs[j])) == y.s[i].flow.ch && y'.s[i].flow == Send(y.s[i].flow.win, None))
      && (a.PokeConn? || a.TakeConn? ==> Held(y'.procs[j]) == Held(y.procs[j]) && y'.s == y.s)
      && (a.TakeConn? ==> Some(ConnHeld(y'.procs[j])) == y.c.ch && y'.c == Send(y.c.win, None))
  {
    assert j < |y.procs|;
  }

  /** Before a call waits for credit it parks what there is, so that it waits only while there is none. */
  lemma {:induction false} WaitsForCredit(t: Rule, y: System, j: nat, n: int)
    requires Inv(t, y)
    ensures Enabled(y, Begin(j, n)) ==>
      var y' := Next(t, y, Begin(j, n));
      Enabled(y', TakeStream(j)) <==> Credit(y.s[y.procs[j].stream].flow) > 0
    ensures Enabled(y, PokeConn(j)) ==> (Enabled(Next(t, y, PokeConn(j)), TakeConn(j)) <==> Credit(y.c) > 0)
  {
    UpdateSendConserves(y.c, 0, false);
    UpdateSendPlaces(y.c, 0, false);
    if Enabled(y, Begin(j, n)) {
      UpdateSendConserves(y.s[y.procs[j].stream].flow, 0, false);
      UpdateSendPlaces(y.s[y.procs[j].stream].flow, 0, false);
    }
  }

  /** Another call that is waiting already can be left waiting although there is credit: after a call has settled
      with the connection this is so if and only if the call used all that it took, and credit that came in the
      meantime is in the counter and not in the channel. */
  lemma {:induction false} LeftWaitingIff(t: Rule, y: System, j: nat)
    requires HalfRule(t) && Inv(t, y) && Enabled(y, SettleConn(j))
    ensures var y', ph := Next(t, y, SettleConn(j)), y.procs[j].phase;
      Credit(y'.c) > 0 && y'.c.ch == None <==> ph.k == ph.cw && y.c.win > 0 && y.c.ch == None
  {
    RemaindersAccepted(t, y, j);
    UpdateSendPlaces(y.c, y.procs[j].phase.cw - y.procs[j].phase.k, false);
  }

  /** A call that holds both credits sends a DATA frame with exactly the least of them and the request, whatever
      the others do between its steps; a request that both cover is granted in full. */
  lemma {:induction false} CallGranted(t: Rule, y: System, j: nat, others: seq<Action>, more: seq<Action>)
    requires HalfRule(t) && Inv(t, y) && Enabled(y, SettleStream(j))
    requires (forall a :: a in others ==> Caller(a) != Some(j)) && (forall a :: a in more ==> Caller(a) != Some(j))
    requires IsRun(t, Next(t, y, SettleStream(j)), others)
    requires var y1 := After(t, Next(t, y, SettleStream(j)), others);
      Enabled(y1, SettleConn(j)) ==> IsRun(t, Next(t, y1, SettleConn(j)), more)
    ensures var ph, y1 := y.procs[j].phase, After(t, Next(t, y, SettleStream(j)), others);
      && Enabled(y1, SettleConn(j))
      && var y2 := After(t, Next(t, y1, SettleConn(j)), more);
      && Enabled(y2, Transmit(j))
      && var data := Next(t, y2, Transmit(j)).data;
      && |data| == |y2.data| + 1 && data[..|y2.data|] == y2.data && data[|y2.data|].stream == y.procs[j].stream
      && var k := data[|y2.data|].n;
      && k <= ph.n && k <= ph.sw && k <= ph.cw && (k == ph.n || k == ph.sw || k == ph.cw)
      && (ph.n <= ph.sw && ph.n <= ph.cw ==> k == ph.n)
  {
    AllocationExact(t, y, j);
    StepKeeps(t, y, SettleStream(j));
    var y0 := Next(t, y, SettleStream(j));
    CallKept(t, y0, j, others);
    RunKeeps(t, y0, others);
    var y1 := After(t, y0, others);
    AllocationBounds(t, y1, j);
    CallKept(t, Next(t, y1, SettleConn(j)), j, more);
  }
}
