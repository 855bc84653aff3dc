/** The two ends of a flow-control window: the sender's credit, split between a counter and a one-slot
    channel, and the receiver's window with its refill rule. Each function is one locked region. */
module FlowControl {
  import opened Wrappers

  const MAX_WINDOW: int := 0x7fff_ffff
  const DEFAULT_WINDOW: int := 65535

  // ----- Sending side

  /** Credit is in the counter or parked in the channel, where an allocator can take it. */
  datatype Send = Send(win: int, ch: Option<int>)

  function Credit(s: Send): (n: int) {
    s.win + (if s.ch.Some? then s.ch.value else 0)
  }

  predicate Refuses(s: Send, delta: int) {
    delta > 0 && MAX_WINDOW - delta < s.win
  }

  function Unpark(s: Send): (r: Send) {
    if s.ch.Some? then Send(s.win + s.ch.value, None) else s
  }

  /** updateWindow: adds delta unless the counter would overflow, then parks what is available. */
  function UpdateSend(s: Send, delta: int, reset: bool): (r: Send) {
    if Refuses(s, delta) then s
    else
      var s1 := if reset then Unpark(s) else s;
      var w := s1.win + delta;
      if w > 0 && s1.ch == None then Send(0, Some(w)) else Send(w, s1.ch)
  }

  predicate SendOk(s: Send) {
    s.win >= 0 && (s.ch.Some? ==> s.ch.value > 0)
  }

  /** Updates move credit around; only the accepted delta changes the total, and no credit is left
      in the counter while the channel is free. */
  lemma {:induction false} UpdateSendConserves(s: Send, delta: int, reset: bool)
    ensures Credit(UpdateSend(s, delta, reset)) == Credit(s) + (if Refuses(s, delta) then 0 else delta)
    ensures SendOk(s) && delta >= 0 ==> SendOk(UpdateSend(s, delta, reset))
    ensures !Refuses(s, delta) && UpdateSend(s, delta, reset).ch == None ==> UpdateSend(s, delta, reset).win <= 0
  {
  }

  /** An update is refused exactly if the counter would pass 2^31-1, and then changes nothing. With reset all
      credit is put together again: in the channel if it is positive, else in the counter. Without reset parked
      credit stays as it is, and otherwise positive credit is parked. */
  lemma {:induction false} UpdateSendPlaces(s: Send, delta: int, reset: bool)
    ensures var r := UpdateSend(s, delta, reset);
      && (delta > 0 && s.win + delta > MAX_WINDOW ==> r == s)
      && (!(delta > 0 && s.win + delta > MAX_WINDOW) ==>
            && Credit(r) == Credit(s) + delta
            && (reset || s.ch == None ==> if Credit(r) > 0 then r.ch == Some(Credit(r)) else r.ch == None)
            && (!reset && s.ch.Some? ==> r.ch == s.ch))
    ensures Unpark(s).ch == None && Credit(Unpark(s)) == Credit(s)
  {
  }

  class RemoteFlowController {
    var win: int
    var winCh: Option<int>

    ghost function View(): (s: Send)
      reads this
    {
      Send(win, winCh)
    }

    constructor (initial: int)
      ensures View() == UpdateSend(Send(0, None), initial, true)
    {
      win, winCh := 0, None;
      new;
      var ok := UpdateWindow(initial, true);
    }

    method UpdateWindow(delta: int, reset: bool) returns (ok: bool)
      modifies this
      ensures View() == UpdateSend(old(View()), delta, reset) && ok == !Refuses(old(View()), delta)
    {
      if delta > 0 && MAX_WINDOW - delta < win {
        return false;
      }
      if reset {
        if winCh.Some? {
          win := win + winCh.value;
          winCh := None;
        }
      }
      win := win + delta;
      if win <= 0 {
        return true;
      }
      if winCh == None {
        winCh := Some(win);
        win := 0;
      }
      return true;
    }

    /** Takes parked credit back into the counter. */
    method Cancel()
      modifies this
      ensures View() == Unpark(old(View()))
    {
      if winCh.Some? {
        win := win + winCh.value;
        winCh := None;
      }
    }

    /** An allocator's receive from the channel. */
    method Receive() returns (n: int)
      requires winCh.Some?
      modifies this
      ensures View() == Send(old(win), None) && Some(n) == old(winCh)
    {
      n := winCh.value;
      winCh := None;
    }
  }

  // ----- Receiving side

  /** The window granted, the window as far as the bytes were processed, and their bounds. */
  datatype Recv = Recv(win: int, lower: int, upper: int, processed: int)

  function Initial(w: int): (r: Recv) {
    Recv(w, 0, w, w)
  }

  function Unreturned(r: Recv): (n: int) {
    r.processed - r.win
  }

  /** The distance between neighbouring float32 values at u. */
  function Spacing(u: nat, q: nat): (r: nat)
    requires q > 0
    ensures r >= q && (u >= 0x100_0000 * q ==> r <= u)
    decreases u - 0x100_0000 * q
  {
    if u < 0x100_0000 * q then q else Spacing(u, 2 * q)
  }

  /** float32(u): round to 24 significant bits, ties to even. */
  function ToFloat32(u: nat): (v: nat) {
    var q := Spacing(u, 1);
    var low, high := u - u % q, u - u % q + q;
    if 2 * (u % q) < q then low
    else if 2 * (u % q) > q then high
    else if low / q % 2 == 0 then low else high
  }

  /** int(float32(upper) * 0.5) */
  function Threshold(upper: int): (t: int) {
    if upper <= 0 then 0 else ToFloat32(upper) / 2
  }

  lemma {:induction false} SpacingSmall(u: nat, q: nat)
    requires q > 0 && u > 0
    ensures Spacing(u, q) <= u || Spacing(u, q) == q
  {
  }

  /** Rounding cannot lift half of a window up to the window. */
  lemma {:induction false} ThresholdBelow(upper: int)
    requires upper >= 1
    ensures 0 <= Threshold(upper) < upper
  {
    var u: nat := upper;
    var q := Spacing(u, 1);
    SpacingSmall(u, 1);
    assert q <= u;
    assert u % q < q;
    assert ToFloat32(u) <= u + q - u % q;
    if u % q == 0 {
      assert ToFloat32(u) == u;
    } else {
      assert u % q <= u - q by { RemainderBelow(u, q); }
    }
  }

  /** The threshold is half of the bound, rounded down, while float32 is exact, and within 65 of it up to the
      largest window. */
  lemma {:induction false} ThresholdIsHalf(upper: int)
    ensures 0 <= upper <= 0x100_0000 ==> Threshold(upper) == upper / 2
    ensures 0 <= upper <= MAX_WINDOW ==> upper - 66 <= 2 * Threshold(upper) <= upper + 64
  {
    if 0 < upper <= MAX_WINDOW {
      SpacingPower(upper, 1);
      var q := Spacing(upper, 1);
      if upper < 0x100_0000 {
        assert q == 1;
      } else if upper == 0x100_0000 {
        assert q == 2;
        assert ToFloat32(upper) == upper;
      }
      Nearest(upper, q);
    }
  }

  lemma {:induction false} SpacingPower(u: nat, q: nat)
    requires 0 < q <= 128 && u < 0x100_0000 * 128 && 128 % q == 0
    requires q in {1, 2, 4, 8, 16, 32, 64, 128}
    ensures Spacing(u, q) <= 128
    decreases 128 - q
  {
    if u >= 0x100_0000 * q { SpacingPower(u, 2 * q); }
  }

  /** Rounding moves a number by half of the spacing at most, to a multiple of it. */
  lemma {:induction false} Nearest(u: nat, q: nat)
    requires q == Spacing(u, 1)
    ensures 2 * ToFloat32(u) - q <= 2 * u <= 2 * ToFloat32(u) + q
  {
  }

  lemma {:induction false} RemainderBelow(u: nat, q: nat)
    requires 0 < q <= u
    ensures u % q <= u - q
  {
    var d := u / q;
    assert u == q * d + u % q && d >= 1;
    assert q * d >= q;
  }

  /** When to refill: a threshold for each upper bound. The source's rule is Threshold. */
  type Rule = int -> int

  ghost predicate HalfRule(t: Rule) {
    forall u :: u >= 1 ==> 0 <= t(u) < u
  }

  lemma {:induction false} ThresholdIsRule()
    ensures HalfRule(Threshold)
  {
    forall u | u >= 1 ensures 0 <= Threshold(u) < u { ThresholdBelow(u); }
  }

  datatype RecvResult = Ok(r: Recv, inc: int) | Err(r: Recv)

  /** updateWindow */
  function ShiftWindow(r: Recv, delta: int): (x: RecvResult) {
    if delta > 0 && MAX_WINDOW - delta < r.win then Err(r)
    else Ok(Recv(r.win + delta, if delta < 0 then delta else 0, r.upper, r.processed + delta), delta)
  }

  /** windowUpdate: refills to the upper bound once half of it is used; the increment is 0 if
      no WINDOW_UPDATE is sent. */
  function Refill(t: Rule, r: Recv): (x: RecvResult) {
    if r.upper <= 0 || r.processed > t(r.upper) then Ok(r, 0)
    else ShiftWindow(r, r.upper - r.processed)
  }

  function Consume(r: Recv, n: int): (x: RecvResult) {
    if n <= 0 then Ok(r, 0)
    else
      var r' := r.(win := r.win - n);
      if r'.win < r.lower then Err(r') else Ok(r', 0)
  }

  function Return(t: Rule, r: Recv, n: int): (x: RecvResult) {
    if r.processed - n < r.win then Err(r) else Refill(t, r.(processed := r.processed - n))
  }

  function RaiseUpper(r: Recv, delta: int): (r': Recv) {
    var n := r.upper + delta;
    r.(upper := if n < DEFAULT_WINDOW then DEFAULT_WINDOW else if n > MAX_WINDOW then MAX_WINDOW else n)
  }

  /** incrementWindow: a larger window, and a refill if that leaves too little. */
  function Grow(t: Rule, r: Recv, delta: int): (x: RecvResult) {
    Refill(t, RaiseUpper(r, delta))
  }

  /** What every reachable controller satisfies while its peer stays within the window. */
  predicate Good(t: Rule, r: Recv) {
    && r.lower == 0 && 0 <= r.win <= r.processed <= r.upper <= MAX_WINDOW
    && (r.upper >= 1 ==> r.processed > t(r.upper))
  }

  lemma {:induction false} InitialGood(t: Rule, w: int)
    requires HalfRule(t) && 0 <= w <= MAX_WINDOW
    ensures Good(t, Initial(w))
  {
  }

  lemma {:induction false} RefillGood(t: Rule, r: Recv)
    requires HalfRule(t) && r.lower == 0 && 0 <= r.win <= r.processed <= r.upper <= MAX_WINDOW
    ensures var x := Refill(t, r);
      && x.Ok? && Good(t, x.r) && 0 <= x.inc <= MAX_WINDOW && x.r.win == r.win + x.inc
      && Unreturned(x.r) == Unreturned(r) && x.r.upper == r.upper
  {
  }

  /** Within the window, consuming never fails; returning what was consumed never fails, gives back
      exactly that, and any increment it sends lies in 1..2^31-1. */
  lemma {:induction false} ReceiveNeverFails(t: Rule, r: Recv, n: int)
    requires HalfRule(t) && Good(t, r) && n >= 0
    ensures n <= r.win ==>
      Consume(r, n) == Ok(r.(win := r.win - n), 0) && Good(t, Consume(r, n).r)
    ensures n <= Unreturned(r) ==>
      var x := Return(t, r, n);
      && x.Ok? && Good(t, x.r) && 0 <= x.inc <= MAX_WINDOW
      && x.r.win == r.win + x.inc && Unreturned(x.r) == Unreturned(r) - n
    ensures n > r.win ==> Consume(r, n).Err?
    ensures n > Unreturned(r) ==> Return(t, r, n) == Err(r)
  {
    if n <= Unreturned(r) { RefillGood(t, r.(processed := r.processed - n)); }
  }

  lemma {:induction false} GrowGood(t: Rule, r: Recv, delta: int)
    requires HalfRule(t) && Good(t, r) && delta >= 0
    ensures var x := Grow(t, r, delta);
      && x.Ok? && Good(t, x.r) && 0 <= x.inc <= MAX_WINDOW && x.r.win == r.win + x.inc
      && Unreturned(x.r) == Unreturned(r)
  {
    RefillGood(t, RaiseUpper(r, delta));
  }

  /** Bytes returned up to p = processed - n: an increment is sent if and only if the bound is positive and p is
      at most the threshold. Then the window is processed up to its bound again, and what the peer may send
      rises by what was lacking; otherwise nothing moves but p. */
  lemma {:induction false} ReturnRefills(t: Rule, r: Recv, n: int)
    requires HalfRule(t) && r.win <= r.processed - n && r.upper <= MAX_WINDOW
    ensures var x, p := Return(t, r, n), r.processed - n;
      && x.Ok?
      && (x.inc > 0 <==> r.upper >= 1 && p <= t(r.upper))
      && (x.inc > 0 ==> x.r == Recv(r.win + (r.upper - p), 0, r.upper, r.upper) && x.inc == r.upper - p)
      && (x.inc <= 0 ==> x.r == Recv(r.win, r.lower, r.upper, p) && x.inc == 0)
  {
  }

  /** The bound a growing window gets: moved by delta, but never below 65535 or above 2^31-1. */
  ghost predicate IsBound(u: int, upper: int, delta: int) {
    && DEFAULT_WINDOW <= u <= MAX_WINDOW
    && (DEFAULT_WINDOW <= upper + delta <= MAX_WINDOW ==> u == upper + delta)
    && (upper + delta < DEFAULT_WINDOW ==> u == DEFAULT_WINDOW)
    && (upper + delta > MAX_WINDOW ==> u == MAX_WINDOW)
  }

  /** Likewise for a window that grows, with its new bound. */
  lemma {:induction false} GrowRefills(t: Rule, r: Recv, delta: int, u: int)
    requires HalfRule(t) && r.win <= r.processed && IsBound(u, r.upper, delta)
    ensures var x := Grow(t, r, delta);
      && x.Ok?
      && (x.inc > 0 <==> r.processed <= t(u))
      && (x.inc > 0 ==> x.r == Recv(r.win + (u - r.processed), 0, u, u) && x.inc == u - r.processed)
      && (x.inc <= 0 ==> x.r == Recv(r.win, r.lower, u, r.processed) && x.inc == 0)
  {
  }

  /** After the windows changed by delta the peer may still send what it was granted before: exactly the old
      window's bytes are accepted when it shrinks, and delta more when it grows. */
  lemma {:induction false} ShiftAccepts(r: Recv, delta: int, n: int)
    requires r.win >= 0 && n > 0
    ensures var x := ShiftWindow(r, delta);
      && (x.Err? <==> delta > 0 && r.win + delta > MAX_WINDOW)
      && (x.Ok? ==> (Consume(x.r, n).Ok? <==> n <= r.win + if delta > 0 then delta else 0))
      && Unreturned(x.r) == Unreturned(r)
  {
  }

  /** A window that is not 0 by its bound is never stuck: while no more than the threshold is granted
      the reader still owes bytes, and returning them all, at once or in two parts, grants more: each
      increment fills the window up to its bound, and at least one is sent. */
  lemma {:induction false} RefillNeverStalls(t: Rule, r: Recv, n: int)
    requires HalfRule(t) && Good(t, r) && r.upper >= 1 && 0 <= n <= Unreturned(r)
    ensures r.win <= t(r.upper) ==> Unreturned(r) > 0
    ensures var x := Return(t, r, n);
      && x.Ok?
      && (x.inc > 0 <==> r.processed - n <= t(r.upper)) && (x.inc > 0 ==> x.r.processed == r.upper)
      && var y := Return(t, x.r, Unreturned(x.r));
         && y.Ok? && y.r.win == y.r.processed > t(y.r.upper) >= 0
         && (y.inc > 0 ==> y.r.win == r.upper)
         && (r.win <= t(r.upper) ==> x.inc + y.inc > 0)
         && (r.win <= t(r.upper) && n == Unreturned(r) ==> x.inc == r.upper - r.win && y.r.win == r.upper)
  {
    ReceiveNeverFails(t, r, n);
    ReturnRefills(t, r, n);
    var x := Return(t, r, n);
    RefillGood(t, r.(processed := r.processed - n));
    ReceiveNeverFails(t, x.r, Unreturned(x.r));
    RefillGood(t, x.r.(processed := x.r.processed - Unreturned(x.r)));
  }

  class FlowController {
    var win: int
    var winLowerBound: int
    var winUpperBound: int
    var processedWin: int
    /** The WINDOW_UPDATE increments sent. */
    var sent: seq<int>

    ghost function View(): (r: Recv)
      reads this
    {
      Recv(win, winLowerBound, winUpperBound, processedWin)
    }

    constructor (w: int)
      ensures View() == Initial(w) && sent == []
    {
      win, winLowerBound, winUpperBound, processedWin, sent := w, 0, w, w, [];
    }

    ghost predicate Became(x: RecvResult, before: seq<int>, ok: bool)
      reads this
    {
      View() == x.r && ok == x.Ok? && sent == if x.Ok? && x.inc > 0 then before + [x.inc] else before
    }

    /** What a call with the bound and the processed window p leaves: an increment up to the bound if p is at
        most half of it, and otherwise no change. */
    ghost predicate Refilled(r: Recv, bound: int, p: int, before: seq<int>)
      reads this
    {
      if bound >= 1 && p <= Threshold(bound) then
        && processedWin == winUpperBound == bound && winLowerBound == 0
        && win == r.win + (bound - p) && sent == before + [bound - p]
      else View() == Recv(r.win, r.lower, bound, p) && sent == before
    }

    method ConsumeBytes(n: int) returns (ok: bool)
      modifies this`win
      ensures Became(Consume(old(View()), n), old(sent), ok)
    {
      if n <= 0 {
        return true;
      }
      win := win - n;
      return win >= winLowerBound;
    }

    method ReturnBytes(delta: int) returns (ok: bool)
      modifies this
      ensures Became(Return(Threshold, old(View()), delta), old(sent), ok)
      ensures old(processedWin) - delta < old(win) ==> !ok && View() == old(View())
      ensures old(processedWin) - delta >= old(win) && old(winUpperBound) <= MAX_WINDOW ==>
        ok && Refilled(old(View()), old(winUpperBound), old(processedWin) - delta, old(sent))
    {
      ThresholdIsRule();
      if processedWin - delta < win {
        return false;
      }
      processedWin := processedWin - delta;
      ok := WindowUpdate();
    }

    method WindowUpdate() returns (ok: bool)
      modifies this
      ensures Became(Refill(Threshold, old(View())), old(sent), ok)
      ensures old(win) <= old(processedWin) && old(winUpperBound) <= MAX_WINDOW ==>
        ok && Refilled(old(View()), old(winUpperBound), old(processedWin), old(sent))
    {
      if winUpperBound <= 0 {
        return true;
      }
      var threshold := Threshold(winUpperBound);
      if processedWin > threshold {
        return true;
      }
      var delta := winUpperBound - processedWin;
      ok := UpdateWindow(delta);
      if !ok {
        return;
      }
      ThresholdBelow(winUpperBound);
      sent := sent + [delta];
    }

    method UpdateWindow(delta: int) returns (ok: bool)
      modifies this`win, this`processedWin, this`winLowerBound
      ensures View() == ShiftWindow(old(View()), delta).r && ok == ShiftWindow(old(View()), delta).Ok?
    {
      if delta > 0 && MAX_WINDOW - delta < win {
        return false;
      }
      win := win + delta;
      processedWin := processedWin + delta;
      winLowerBound := 0;
      if delta < 0 {
        winLowerBound := delta;
      }
      return true;
    }

    method IncrementWindow(delta: int) returns (ok: bool)
      modifies this
      ensures Became(Grow(Threshold, old(View()), delta), old(sent), ok)
      ensures forall u :: IsBound(u, old(winUpperBound), delta) && old(win) <= old(processedWin) ==>
        ok && Refilled(old(View()), u, old(processedWin), old(sent))
    {
      var n := winUpperBound + delta;
      if n < DEFAULT_WINDOW {
        n := DEFAULT_WINDOW;
      }
      if n > MAX_WINDOW {
        n := MAX_WINDOW;
      }
      winUpperBound := n;
      ok := WindowUpdate();
    }
  }

  // ----- A stream inside its connection

  /** consumeBytes of a stream: the connection first, and the stream only if that succeeds. */
  method ConsumeNested(conn: FlowController, stream: FlowController, n: int) returns (ok: bool)
    requires conn != stream
    modifies conn`win, stream`win
    ensures var c := Consume(old(conn.View()), n);
      var s := Consume(old(stream.View()), n);
      && conn.View() == c.r && ok == (c.Ok? && s.Ok?)
      && stream.View() == if c.Ok? then s.r else old(stream.View())
  {
    if n <= 0 {
      return true;
    }
    ok := conn.ConsumeBytes(n);
    if ok {
      ok := stream.ConsumeBytes(n);
    }
  }

  method ReturnNested(conn: FlowController, stream: FlowController, n: int) returns (ok: bool)
    requires conn != stream
    modifies conn, stream
    ensures var c := Return(Threshold, old(conn.View()), n);
      var s := Return(Threshold, old(stream.View()), n);
      && conn.View() == c.r && ok == (c.Ok? && s.Ok?)
      && stream.View() == if c.Ok? then s.r else old(stream.View())
  {
    ok := conn.ReturnBytes(n);
    if ok {
      ok := stream.ReturnBytes(n);
    }
  }
}
