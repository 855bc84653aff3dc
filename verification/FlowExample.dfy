/** A run from the start in which a stream is closed under its reader and its bytes are returned twice. */
module FlowExample {
  import opened Wrappers
  import opened FlowControl
  import P = FlowProtocol

  lemma {:induction false} RunFrom(t: Rule, y: P.System, a: P.Action, run: seq<P.Action>)
    requires P.Enabled(y, a) && P.IsRun(t, P.Next(t, y, a), run)
    ensures P.IsRun(t, y, [a] + run) && P.After(t, y, [a] + run) == P.After(t, P.Next(t, y, a), run)
  {
    assert ([a] + run)[1..] == run;
  }

  lemma {:induction false} RunHead(t: Rule, y: P.System, run: seq<P.Action>) returns (y1: P.System)
    requires run != [] && P.IsRun(t, y, run)
    ensures Steps(t, y, run[0], y1) && P.IsRun(t, y1, run[1..]) && P.After(t, y, run) == P.After(t, y1, run[1..])
  {
    y1 := P.Next(t, y, run[0]);
  }

  ghost predicate Steps(t: Rule, y: P.System, a: P.Action, y1: P.System) {
    P.Enabled(y, a) && y1 == P.Next(t, y, a)
  }

  lemma {:induction false} RunStep(t: Rule, y: P.System, y1: P.System, a: P.Action, run: seq<P.Action>)
    requires Steps(t, y, a, y1) && P.IsRun(t, y1, run)
    ensures P.IsRun(t, y, [a] + run) && P.After(t, y, [a] + run) == P.After(t, y1, run)
  {
    RunFrom(t, y, a, run);
  }

  lemma {:induction false} RunJoin(t: Rule, y: P.System, a: seq<P.Action>, b: seq<P.Action>)
    requires P.IsRun(t, y, a) && P.IsRun(t, P.After(t, y, a), b)
    ensures P.IsRun(t, y, a + b) && P.After(t, y, a + b) == P.After(t, P.After(t, y, a), b)
    decreases |a|
  {
    if a == [] {
      assert a + b == b;
    } else {
      assert a + b == [a[0]] + (a[1..] + b);
      var y1 := RunHead(t, y, a);
      RunJoin(t, y1, a[1..], b);
      RunStep(t, y, y1, a[0], a[1..] + b);
    }
  }

  /** One byte of stream i, allocated by process j and sent. */
  function SendRun(j: nat): (run: seq<P.Action>) {
    [P.Begin(j, 1)] + ([P.TakeStream(j)] + ([P.PokeConn(j)] + ([P.TakeConn(j)] + ([P.SettleStream(j)] + ([P.SettleConn(j)] + ([P.Transmit(j)] + []))))))
  }

  /** All credit is parked, and the process is idle. */
  predicate AtRest(y: P.System, j: nat, i: nat, a: int, b: int) {
    && j < |y.procs| && y.procs[j] == P.Proc(i, P.Idle) && i < |y.s|
    && y.s[i].flow == Send(0, Some(a)) && y.c == Send(0, Some(b)) && 1 < a <= MAX_WINDOW && 1 < b <= MAX_WINDOW
  }

  function Sent(y: P.System, i: nat, a: int, b: int): (y': P.System)
    requires i < |y.s|
  {
    y.(c := Send(0, Some(b - 1)), s := y.s[i := y.s[i].(flow := Send(0, Some(a - 1)))], data := y.data + [P.Data(i, 1)])
  }

  lemma {:induction false} SendsOne(t: Rule, y: P.System, j: nat, i: nat, a: int, b: int)
    requires AtRest(y, j, i, a, b)
    ensures P.IsRun(t, y, SendRun(j)) && P.After(t, y, SendRun(j)) == Sent(y, i, a, b)
  {
    var y1 := P.WithPhase(y, j, P.AwaitStream(1));
    assert P.WithFlow(y, i, Send(0, Some(a))) == y;
    assert P.Next(t, y, P.Begin(j, 1)) == y1;
    var y2 := P.WithPhase(P.WithFlow(y, i, Send(0, None)), j, P.HasStream(1, a));
    assert P.Next(t, y1, P.TakeStream(j)) == y2;
    var y3 := P.WithPhase(P.WithFlow(y, i, Send(0, None)), j, P.AwaitConn(1, a));
    assert P.Next(t, y2, P.PokeConn(j)) == y3;
    var y4 := P.WithPhase(P.WithFlow(y.(c := Send(0, None)), i, Send(0, None)), j, P.HasBoth(1, a, b));
    assert P.Next(t, y3, P.TakeConn(j)) == y4;
    Settles(t, y, j, i, a, b, y4);
    RunFrom(t, y3, P.TakeConn(j), SettleRun(j));
    RunFrom(t, y2, P.PokeConn(j), [P.TakeConn(j)] + SettleRun(j));
    RunFrom(t, y1, P.TakeStream(j), [P.PokeConn(j)] + ([P.TakeConn(j)] + SettleRun(j)));
    RunFrom(t, y, P.Begin(j, 1), [P.TakeStream(j)] + ([P.PokeConn(j)] + ([P.TakeConn(j)] + SettleRun(j))));
  }

  function SettleRun(j: nat): (run: seq<P.Action>) {
    [P.SettleStream(j)] + ([P.SettleConn(j)] + ([P.Transmit(j)] + []))
  }

  lemma {:induction false} Settles(t: Rule, y: P.System, j: nat, i: nat, a: int, b: int, y4: P.System)
    requires AtRest(y, j, i, a, b)
    requires y4 == P.WithPhase(P.WithFlow(y.(c := Send(0, None)), i, Send(0, None)), j, P.HasBoth(1, a, b))
    ensures P.IsRun(t, y4, SettleRun(j)) && P.After(t, y4, SettleRun(j)) == Sent(y, i, a, b)
  {
    var y5 := P.WithPhase(P.WithFlow(y.(c := Send(0, None)), i, Send(0, Some(a - 1))), j, P.StreamSettled(1, 1, b));
    assert P.Next(t, y4, P.SettleStream(j)) == y5;
    var y6 := P.WithPhase(P.WithFlow(y.(c := Send(0, Some(b - 1))), i, Send(0, Some(a - 1))), j, P.Allocated(1, 1));
    assert P.Next(t, y5, P.SettleConn(j)) == y6;
    assert y.procs[j := P.Proc(i, P.Idle)] == y.procs;
    assert P.Next(t, y6, P.Transmit(j)) == Sent(y, i, a, b);
    assert P.IsRun(t, Sent(y, i, a, b), []);
    RunFrom(t, y6, P.Transmit(j), []);
    RunFrom(t, y5, P.SettleConn(j), [P.Transmit(j)] + []);
    RunFrom(t, y4, P.SettleStream(j), [P.SettleConn(j)] + ([P.Transmit(j)] + []));
  }

  // ----- The run

  const W := DEFAULT_WINDOW

  function OpenRun(): (run: seq<P.Action>) {
    [P.Open(W)] + ([P.Open(W)] + ([P.Spawn(0)] + ([P.Spawn(1)] + [])))
  }

  function Stream(): (s: P.SendStream) {
    P.SendStream(Send(0, Some(W)), true, true)
  }

  function Window(): (r: P.RecvStream) {
    P.RecvStream(Initial(W), true)
  }

  function TwoStreams(): (y: P.System) {
    P.System(Send(0, Some(W)), [Stream(), Stream()], [P.Proc(0, P.Idle), P.Proc(1, P.Idle)], [], [], Initial(W), [Window(), Window()], 0)
  }

  lemma {:induction false} Opens(t: Rule)
    ensures P.IsRun(t, P.Start(), OpenRun()) && P.After(t, P.Start(), OpenRun()) == TwoStreams()
  {
    var c := Send(0, Some(W));
    var y1 := P.System(c, [Stream()], [], [], [], Initial(W), [Window()], 0);
    assert P.Next(t, P.Start(), P.Open(W)) == y1;
    var y2 := P.System(c, [Stream(), Stream()], [], [], [], Initial(W), [Window(), Window()], 0);
    assert P.Next(t, y1, P.Open(W)) == y2;
    var y3 := y2.(procs := [P.Proc(0, P.Idle)]);
    assert P.Next(t, y2, P.Spawn(0)) == y3;
    assert P.Next(t, y3, P.Spawn(1)) == TwoStreams();
    assert P.IsRun(t, TwoStreams(), []);
    RunFrom(t, y3, P.Spawn(1), []);
    RunFrom(t, y2, P.Spawn(0), [P.Spawn(1)] + []);
    RunFrom(t, y1, P.Open(W), [P.Spawn(0)] + ([P.Spawn(1)] + []));
    RunFrom(t, P.Start(), P.Open(W), [P.Open(W)] + ([P.Spawn(0)] + ([P.Spawn(1)] + [])));
  }

  function Received(): (r: P.RecvStream) {
    P.RecvStream(Recv(W - 1, 0, W, W), true)
  }

  /** Both streams have one byte that the reader has not returned. */
  predicate BothOwe(y: P.System) {
    y.data == [] && y.r == [Received(), Received()] && y.rc == Recv(W - 2, 0, W, W)
  }

  lemma {:induction false} Receives(t: Rule, y: P.System)
    requires y.data == [P.Data(0, 1), P.Data(1, 1)] && y.r == [Window(), Window()] && y.rc == Initial(W)
    ensures P.IsRun(t, y, [P.Receive] + ([P.Receive] + [])) && BothOwe(P.After(t, y, [P.Receive] + ([P.Receive] + [])))
  {
    var y1 := P.Next(t, y, P.Receive);
    assert y1.data == [P.Data(1, 1)] && y1.r == [Received(), Window()] && y1.rc == Recv(W - 1, 0, W, W);
    var y2 := P.Next(t, y1, P.Receive);
    assert y2.data == [] && y2.r == [Received(), Received()];
    assert P.IsRun(t, y2, []);
    RunFrom(t, y1, P.Receive, []);
    RunFrom(t, y, P.Receive, [P.Receive] + []);
  }

  function OweRun(): (run: seq<P.Action>) {
    OpenRun() + (SendRun(0) + (SendRun(1) + ([P.Receive] + ([P.Receive] + []))))
  }

  lemma {:induction false} Owes(t: Rule)
    ensures P.IsRun(t, P.Start(), OweRun()) && BothOwe(P.After(t, P.Start(), OweRun()))
  {
    Opens(t);
    var y := TwoStreams();
    SendsOne(t, y, 0, 0, W, W);
    var y1 := Sent(y, 0, W, W);
    SendsOne(t, y1, 1, 1, W, W - 1);
    var y2 := Sent(y1, 1, W, W - 1);
    assert y2.data == [P.Data(0, 1), P.Data(1, 1)];
    Receives(t, y2);
    var last := [P.Receive] + ([P.Receive] + []);
    RunJoin(t, y1, SendRun(1), last);
    RunJoin(t, y, SendRun(0), SendRun(1) + last);
    RunJoin(t, P.Start(), OpenRun(), SendRun(0) + (SendRun(1) + last));
  }

  /** Two streams receive a byte each; the first is closed while the reader holds its frame, and the byte is
      returned once more: the connection then owes less than its live stream does. */
  lemma {:induction false} ReturnedTwice()
    ensures P.IsRun(Threshold, P.Start(), OweRun())
    ensures var y := P.After(Threshold, P.Start(), OweRun());
      && P.Enabled(y, P.CloseReceiver(0))
      && var y1 := P.Next(Threshold, y, P.CloseReceiver(0));
         !P.Nested(P.LateReturn(Threshold, y1, 0, 1)) &&
         Unreturned(P.LateReturn(Threshold, y1, 0, 1).rc) < P.Sum(P.Outstanding, y1.r) + y1.discard
  {
    ThresholdIsRule();
    Owes(Threshold);
    P.Conservation(OweRun());
    P.ClosedThenReturned(Threshold, P.After(Threshold, P.Start(), OweRun()), 0, 1);
  }
}
