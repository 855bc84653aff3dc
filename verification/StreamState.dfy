/** The stream automaton (section 5.1 of RFC 7540) and two endpoints running it over FIFO links. */
module StreamState {

  datatype State = Idle | ReservedLocal | ReservedRemote | Open | HalfClosedLocal | HalfClosedRemote | Closed

  datatype FrameType =
    | Data | Headers | Priority | RSTStream | Settings | PushPromise | Ping | GoAway | WindowUpdate | Continuation

  datatype Event = Event(frame: FrameType, endStream: bool)

  /** The state after a transition and whether it is allowed. */
  datatype Outcome = Outcome(to: State, ok: bool)

  function Base(from: State, recv: bool, frame: FrameType): (r: Outcome) {
    if recv then
      match from
      case Idle =>
        (match frame
         case Headers => Outcome(Open, true)
         case Priority => Outcome(Idle, true)
         case PushPromise => Outcome(ReservedRemote, true)
         case _ => Outcome(Idle, false))
      case ReservedLocal => Receiving(from, frame)
      case HalfClosedRemote => Receiving(from, frame)
      case ReservedRemote =>
        (match frame
         case Headers => Outcome(HalfClosedLocal, true)
         case Priority => Outcome(from, true)
         case RSTStream => Outcome(Closed, true)
         case _ => Outcome(from, false))
      case Open => Outcome(if frame == RSTStream then Closed else from, true)
      case HalfClosedLocal => Outcome(if frame == RSTStream then Closed else from, true)
      case Closed => Outcome(from, frame == Priority)
    else
      match from
      case Idle =>
        (match frame
         case Headers => Outcome(Open, true)
         case Priority => Outcome(Idle, true)
         case PushPromise => Outcome(ReservedLocal, true)
         case _ => Outcome(Idle, false))
      case ReservedLocal =>
        (match frame
         case Headers => Outcome(HalfClosedRemote, true)
         case Priority => Outcome(from, true)
         case RSTStream => Outcome(Closed, true)
         case _ => Outcome(from, false))
      case ReservedRemote => Receiving(from, frame)
      case HalfClosedLocal => Receiving(from, frame)
      case Open => Outcome(if frame == RSTStream then Closed else from, true)
      case HalfClosedRemote =>
        (match frame
         case Data => Outcome(from, true)
         case Headers => Outcome(from, true)
         case Priority => Outcome(from, true)
         case RSTStream => Outcome(Closed, true)
         case _ => Outcome(from, false))
      case Closed => Outcome(from, frame == Priority)
  }

  /** States in which only PRIORITY, WINDOW_UPDATE and RST_STREAM pass. */
  function Receiving(from: State, frame: FrameType): (r: Outcome) {
    match frame
    case Priority => Outcome(from, true)
    case WindowUpdate => Outcome(from, true)
    case RSTStream => Outcome(Closed, true)
    case _ => Outcome(from, false)
  }

  function Transition(from: State, recv: bool, frame: FrameType, endStream: bool): (r: Outcome) {
    var b := Base(from, recv, frame);
    if !b.ok || !endStream then b
    else
      match b.to
      case Open => Outcome(if recv then HalfClosedRemote else HalfClosedLocal, true)
      case HalfClosedLocal => Outcome(Closed, true)
      case HalfClosedRemote => Outcome(Closed, true)
      case _ => b
  }

  // ----- What the states mean

  /** The endpoint may send DATA. */
  predicate Sends(s: State) {
    s == Open || s == HalfClosedRemote
  }

  /** The peer may send DATA. */
  predicate Receives(s: State) {
    s == Open || s == HalfClosedLocal
  }

  predicate Reserved(s: State) {
    s == ReservedLocal || s == ReservedRemote
  }

  /** HEADERS open an idle stream in both directions, and a promised stream in the direction of the endpoint
      that promised it. */
  predicate Opens(from: State, recv: bool, frame: FrameType, outgoing: bool) {
    frame == Headers && (from == Idle || (outgoing && !recv && from == ReservedLocal) || (!outgoing && recv && from == ReservedRemote))
  }

  /** Which frames are allowed, frame by frame. */
  lemma {:induction false} AllowedIff(from: State, recv: bool, frame: FrameType, endStream: bool)
    ensures Transition(from, recv, frame, endStream).ok <==>
      match frame
      case Priority => true
      case Headers => from == Idle || from == (if recv then ReservedRemote else ReservedLocal) || (if recv then Receives(from) else Sends(from))
      case Data => if recv then Receives(from) else Sends(from)
      case RSTStream => from != Idle && from != Closed
      case PushPromise => from == Idle || from == Open || (recv && from == HalfClosedLocal)
      case WindowUpdate =>
        from == Open || from == HalfClosedLocal
        || (if recv then from == ReservedLocal || from == HalfClosedRemote else from == ReservedRemote)
      case Settings => from == Open || (recv && from == HalfClosedLocal)
      case Ping => from == Open || (recv && from == HalfClosedLocal)
      case GoAway => from == Open || (recv && from == HalfClosedLocal)
      case Continuation => from == Open || (recv && from == HalfClosedLocal)
  {
  }

  /** An allowed frame other than RST_STREAM opens what HEADERS open, and END_STREAM closes exactly the direction
      it is sent in; RST_STREAM closes the stream, and so does the end of the last open direction. PUSH_PROMISE
      reserves an idle stream for its sender. */
  lemma {:induction false} Directions(from: State, recv: bool, frame: FrameType, endStream: bool)
    requires Transition(from, recv, frame, endStream).ok && (endStream ==> frame == Data || frame == Headers)
    ensures var to := Transition(from, recv, frame, endStream).to;
      && (Sends(to) <==> frame != RSTStream && (Sends(from) || Opens(from, recv, frame, true)) && !(endStream && !recv))
      && (Receives(to) <==> frame != RSTStream && (Receives(from) || Opens(from, recv, frame, false)) && !(endStream && recv))
      && (to == Closed <==> from == Closed || frame == RSTStream || (endStream && !Sends(to) && !Receives(to)))
      && (to == Idle <==> from == Idle && frame == Priority)
      && (Reserved(to) <==> (Reserved(from) && frame != Headers && frame != RSTStream) || (from == Idle && frame == PushPromise))
      && (Reserved(from) && Reserved(to) ==> to == from)
      && (from == Idle && frame == PushPromise ==> to == if recv then ReservedRemote else ReservedLocal)
  {
  }

  function Rank(s: State): (r: nat) {
    match s
    case Idle => 0
    case ReservedLocal => 1
    case ReservedRemote => 1
    case Open => 1
    case HalfClosedLocal => 2
    case HalfClosedRemote => 2
    case Closed => 3
  }

  /** No transition goes back: a changed state has a higher rank, a refused event changes nothing,
      and a closed stream stays closed. */
  lemma {:induction false} Forward(from: State, recv: bool, frame: FrameType, endStream: bool)
    ensures var r := Transition(from, recv, frame, endStream);
      && (r.to == from || Rank(r.to) > Rank(from))
      && (!r.ok ==> r.to == from)
      && (from == Closed ==> r.to == Closed)
  {
  }

  // ----- The two sides of one stream

  function Mirror(s: State): (m: State) {
    match s
    case ReservedLocal => ReservedRemote
    case ReservedRemote => ReservedLocal
    case HalfClosedLocal => HalfClosedRemote
    case HalfClosedRemote => HalfClosedLocal
    case _ => s
  }

  /** END_STREAM is a flag of DATA and HEADERS only. */
  predicate ValidEvent(e: Event) {
    e.endStream ==> e.frame == Data || e.frame == Headers
  }

  function OnSend(s: State, e: Event): (s': State) {
    Transition(s, false, e.frame, e.endStream).to
  }

  function OnReceive(s: State, e: Event): (s': State) {
    Transition(s, true, e.frame, e.endStream).to
  }

  /** Receiving is the mirror image of sending, also where one side refuses. */
  lemma {:induction false} MirrorStep(s: State, e: Event)
    requires ValidEvent(e)
    ensures OnReceive(Mirror(s), e) == Mirror(OnSend(s, e))
  {
  }

  /** Sending and receiving commute, except that an idle stream must not receive what opens it. */
  lemma {:induction false} Diamond(s: State, e: Event, r: Event)
    requires ValidEvent(e) && ValidEvent(r) && Transition(s, false, e.frame, e.endStream).ok
    requires s == Idle ==> r.frame == Priority || e.frame == Priority
    ensures OnReceive(OnSend(s, e), r) == OnSend(OnReceive(s, r), e)
  {
    match s
    case Idle =>
    case ReservedLocal =>
    case ReservedRemote =>
    case Open => DiamondOpen(e, r);
    case HalfClosedLocal =>
    case HalfClosedRemote =>
    case Closed =>
  }

  lemma {:induction false} DiamondOpen(e: Event, r: Event)
    requires ValidEvent(e) && ValidEvent(r)
    ensures OnReceive(OnSend(Open, e), r) == OnSend(OnReceive(Open, r), e)
  {
    if e.frame == RSTStream {
    } else if r.frame == RSTStream {
    } else {
    }
  }

  function Drain(s: State, link: seq<Event>): (s': State)
    decreases |link|
  {
    if link == [] then s else Drain(OnReceive(s, link[0]), link[1..])
  }

  lemma {:induction false} DrainAppend(s: State, link: seq<Event>, e: Event)
    ensures Drain(s, link + [e]) == OnReceive(Drain(s, link), e)
    decreases |link|
  {
    if link == [] {
      assert (link + [e])[1..] == [];
    } else {
      DrainAppend(OnReceive(s, link[0]), link[1..], e);
      assert (link + [e])[1..] == link[1..] + [e];
    }
  }

  predicate OnlyPriority(link: seq<Event>) {
    forall k :: 0 <= k < |link| ==> link[k].frame == Priority && !link[k].endStream
  }

  /** Sending now or after all that is under way has arrived comes to the same. */
  lemma {:induction false} SendThenDrain(s: State, e: Event, link: seq<Event>)
    requires ValidEvent(e) && Transition(s, false, e.frame, e.endStream).ok
    requires forall k :: 0 <= k < |link| ==> ValidEvent(link[k])
    requires s == Idle ==> OnlyPriority(link) || e.frame == Priority
    ensures Drain(OnSend(s, e), link) == OnSend(Drain(s, link), e)
    decreases |link|
  {
    if link != [] {
      var r, s' := link[0], OnReceive(s, link[0]);
      Diamond(s, e, r);
      if Transition(s', false, e.frame, e.endStream).ok {
        SendThenDrain(s', e, link[1..]);
      } else {
        RefusedStays(s, e, r, link[1..]);
      }
    }
  }

  /** What a received event makes the sender refuse, it keeps refusing, without effect. */
  lemma {:induction false} RefusedStays(s: State, e: Event, r: Event, link: seq<Event>)
    requires ValidEvent(e) && ValidEvent(r) && forall k :: 0 <= k < |link| ==> ValidEvent(link[k])
    requires Transition(s, false, e.frame, e.endStream).ok
    requires s == Idle ==> r.frame == Priority || e.frame == Priority
    requires var s' := OnReceive(s, r); !Transition(s', false, e.frame, e.endStream).ok
    ensures var s' := OnReceive(s, r);
      OnSend(s', e) == s' && OnSend(Drain(s', link), e) == Drain(s', link)
  {
    var s' := OnReceive(s, r);
    NoOpForever(s', e, link);
  }

  lemma {:induction false} NoOpForever(s: State, e: Event, link: seq<Event>)
    requires ValidEvent(e) && OnSend(s, e) == s && (s == Closed || s == HalfClosedRemote)
    requires s == HalfClosedRemote ==> e.frame != Data && e.frame != Headers && e.frame != RSTStream
    requires forall k :: 0 <= k < |link| ==> ValidEvent(link[k])
    ensures OnSend(Drain(s, link), e) == Drain(s, link)
    decreases |link|
  {
    if link != [] { NoOpForever(OnReceive(s, link[0]), e, link[1..]); }
  }

  /** A initiates the stream; ab and ba are the frames under way. */
  datatype Pair = Pair(a: State, b: State, ab: seq<Event>, ba: seq<Event>)

  datatype Action = SendA(e: Event) | SendB(e: Event) | ReceiveA | ReceiveB

  /** Only the initiator moves a stream out of idle by sending; refused sends do not happen. */
  predicate Enabled(p: Pair, x: Action) {
    match x
    case SendA(e) => ValidEvent(e) && Transition(p.a, false, e.frame, e.endStream).ok
    case SendB(e) =>
      ValidEvent(e) && Transition(p.b, false, e.frame, e.endStream).ok && (p.b == Idle ==> e == Event(Priority, false))
    case ReceiveA => p.ba != []
    case ReceiveB => p.ab != []
  }

  /** A receiver that refuses a frame keeps its state. */
  function Next(p: Pair, x: Action): (p': Pair)
    requires Enabled(p, x)
  {
    match x
    case SendA(e) => p.(a := OnSend(p.a, e), ab := p.ab + [e])
    case SendB(e) => p.(b := OnSend(p.b, e), ba := p.ba + [e])
    case ReceiveA => p.(a := OnReceive(p.a, p.ba[0]), ba := p.ba[1..])
    case ReceiveB => p.(b := OnReceive(p.b, p.ab[0]), ab := p.ab[1..])
  }

  /** If everything under way were delivered, the ends would mirror each other. */
  predicate Inv(p: Pair) {
    && Drain(p.b, p.ab) == Mirror(Drain(p.a, p.ba))
    && (forall k :: 0 <= k < |p.ab| ==> ValidEvent(p.ab[k]))
    && (forall k :: 0 <= k < |p.ba| ==> ValidEvent(p.ba[k]))
    && (p.a == Idle ==> p.b == Idle && OnlyPriority(p.ab))
    && (p.b == Idle || p.a == Idle ==> OnlyPriority(p.ba))
  }

  lemma {:induction false} StepKeeps(p: Pair, x: Action)
    requires Inv(p) && Enabled(p, x)
    ensures Inv(Next(p, x))
  {
    match x
    case SendA(e) => SendAKeeps(p, e);
    case SendB(e) => SendBKeeps(p, e);
    case ReceiveA => ReceiveKeeps(p.a, p.ba);
    case ReceiveB => ReceiveKeeps(p.b, p.ab);
  }

  lemma {:induction false} SendAKeeps(p: Pair, e: Event)
    requires Inv(p) && Enabled(p, SendA(e))
    ensures Inv(Next(p, SendA(e)))
  {
    DrainAppend(p.b, p.ab, e);
    SendThenDrain(p.a, e, p.ba);
    MirrorStep(Drain(p.a, p.ba), e);
    Forward(p.a, false, e.frame, e.endStream);
    if OnSend(p.a, e) == Idle { IdleSends(p.a, e); }
  }

  lemma {:induction false} SendBKeeps(p: Pair, e: Event)
    requires Inv(p) && Enabled(p, SendB(e))
    ensures Inv(Next(p, SendB(e)))
  {
    DrainAppend(p.a, p.ba, e);
    Forward(p.b, false, e.frame, e.endStream);
    if p.b == Idle {
      PriorityKeeps(Drain(p.a, p.ba), e);
      PriorityKeeps(p.b, e);
    } else {
      SendThenDrain(p.b, e, p.ab);
      MirrorStep(Drain(p.b, p.ab), e);
      MirrorTwice(Drain(p.a, p.ba));
      MirrorTwice(OnSend(Drain(p.b, p.ab), e));
    }
  }

  lemma {:induction false} MirrorTwice(s: State)
    ensures Mirror(Mirror(s)) == s
  {
  }

  /** A stream that is still idle after sending has sent PRIORITY without END_STREAM. */
  lemma {:induction false} IdleSends(s: State, e: Event)
    requires ValidEvent(e) && Transition(s, false, e.frame, e.endStream).ok && OnSend(s, e) == Idle
    ensures s == Idle && e == Event(Priority, false)
  {
  }

  lemma {:induction false} ReceiveKeeps(s: State, link: seq<Event>)
    requires link != [] && ValidEvent(link[0])
    ensures Drain(OnReceive(s, link[0]), link[1..]) == Drain(s, link)
    ensures OnReceive(s, link[0]) == Idle ==> s == Idle
    ensures s == Idle && link[0].frame == Priority ==> OnReceive(s, link[0]) == Idle
  {
    Forward(s, true, link[0].frame, link[0].endStream);
  }

  lemma {:induction false} PriorityKeeps(s: State, e: Event)
    requires e == Event(Priority, false)
    ensures OnReceive(s, e) == s && OnSend(s, e) == s
  {
  }

  ghost predicate IsRun(p: Pair, run: seq<Action>)
    decreases |run|
  {
    run == [] || (Enabled(p, run[0]) && IsRun(Next(p, run[0]), run[1..]))
  }

  ghost function After(p: Pair, run: seq<Action>): (p': Pair)
    requires IsRun(p, run)
    decreases |run|
  {
    if run == [] then p else After(Next(p, run[0]), run[1..])
  }

  lemma {:induction false} RunKeeps(p: Pair, run: seq<Action>)
    requires Inv(p) && IsRun(p, run)
    ensures Inv(After(p, run))
    ensures Rank(After(p, run).a) >= Rank(p.a) && Rank(After(p, run).b) >= Rank(p.b)
    decreases |run|
  {
    if run != [] {
      StepKeeps(p, run[0]);
      StepForward(p, run[0]);
      RunKeeps(Next(p, run[0]), run[1..]);
    }
  }

  lemma {:induction false} StepForward(p: Pair, x: Action)
    requires Enabled(p, x)
    ensures Rank(Next(p, x).a) >= Rank(p.a) && Rank(Next(p, x).b) >= Rank(p.b)
  {
    match x
    case SendA(e) => Forward(p.a, false, e.frame, e.endStream);
    case SendB(e) => Forward(p.b, false, e.frame, e.endStream);
    case ReceiveA => Forward(p.a, true, p.ba[0].frame, p.ba[0].endStream);
    case ReceiveB => Forward(p.b, true, p.ab[0].frame, p.ab[0].endStream);
  }

  /** Whatever the interleaving: once both links are drained, the ends are in mirror-image states. */
  lemma {:induction false} Convergence(run: seq<Action>)
    requires IsRun(Pair(Idle, Idle, [], []), run)
    ensures var p := After(Pair(Idle, Idle, [], []), run);
      p.ab == [] && p.ba == [] ==> p.b == Mirror(p.a)
  {
    RunKeeps(Pair(Idle, Idle, [], []), run);
  }

  // ----- Streams that end

  /** The endpoint has nothing more to send. */
  predicate Finished(s: State) {
    s == HalfClosedLocal || s == Closed
  }

  lemma {:induction false} FinishedStays(s: State, recv: bool, e: Event)
    requires Finished(s)
    ensures Finished(Transition(s, recv, e.frame, e.endStream).to)
  {
  }

  lemma {:induction false} EndFinishes(s: State, e: Event)
    requires ValidEvent(e) && e.endStream && Transition(s, false, e.frame, e.endStream).ok
    ensures Finished(OnSend(s, e))
  {
  }

  lemma {:induction false} FinishedForever(p: Pair, run: seq<Action>)
    requires IsRun(p, run)
    ensures Finished(p.a) ==> Finished(After(p, run).a)
    ensures Finished(p.b) ==> Finished(After(p, run).b)
    decreases |run|
  {
    if run != [] {
      FinishedStep(p, run[0]);
      FinishedForever(Next(p, run[0]), run[1..]);
    }
  }

  lemma {:induction false} FinishedStep(p: Pair, x: Action)
    requires Enabled(p, x)
    ensures Finished(p.a) ==> Finished(Next(p, x).a)
    ensures Finished(p.b) ==> Finished(Next(p, x).b)
    ensures x.SendA? && x.e.endStream ==> Finished(Next(p, x).a)
    ensures x.SendB? && x.e.endStream ==> Finished(Next(p, x).b)
  {
    match x
    case SendA(e) => if Finished(p.a) { FinishedStays(p.a, false, e); } if e.endStream { EndFinishes(p.a, e); }
    case SendB(e) => if Finished(p.b) { FinishedStays(p.b, false, e); } if e.endStream { EndFinishes(p.b, e); }
    case ReceiveA => if Finished(p.a) { FinishedStays(p.a, true, p.ba[0]); }
    case ReceiveB => if Finished(p.b) { FinishedStays(p.b, true, p.ab[0]); }
  }

  ghost predicate SomeEnd(run: seq<Action>, byA: bool) {
    exists x :: x in run && (if byA then x.SendA? && x.e.endStream else x.SendB? && x.e.endStream)
  }

  lemma {:induction false} EndsFinish(p: Pair, run: seq<Action>)
    requires IsRun(p, run)
    ensures SomeEnd(run, true) ==> Finished(After(p, run).a)
    ensures SomeEnd(run, false) ==> Finished(After(p, run).b)
    decreases |run|
  {
    if run != [] {
      var p1 := Next(p, run[0]);
      FinishedStep(p, run[0]);
      FinishedForever(p1, run[1..]);
      EndsFinish(p1, run[1..]);
      assert run == [run[0]] + run[1..];
      assert forall x :: x in run ==> x == run[0] || x in run[1..];
    }
  }

  /** Neither a reset nor a promise. */
  predicate Gentle(e: Event) {
    e.frame != RSTStream && e.frame != PushPromise
  }

  predicate GentleAction(x: Action) {
    match x
    case SendA(e) => Gentle(e)
    case SendB(e) => Gentle(e)
    case _ => true
  }

  predicate GentlePair(p: Pair) {
    && !Reserved(p.a) && !Reserved(p.b)
    && (forall k :: 0 <= k < |p.ab| ==> Gentle(p.ab[k]) && ValidEvent(p.ab[k]))
    && (forall k :: 0 <= k < |p.ba| ==> Gentle(p.ba[k]) && ValidEvent(p.ba[k]))
  }

  /** Without resets and promises an endpoint finishes only by sending END_STREAM. */
  lemma {:induction false} OnlyEndFinishes(s: State, recv: bool, e: Event)
    requires Gentle(e) && ValidEvent(e) && !Reserved(s) && !Finished(s)
    ensures var to := Transition(s, recv, e.frame, e.endStream).to;
      !Reserved(to) && (Finished(to) ==> !recv && e.endStream)
  {
  }

  lemma {:induction false} GentleStays(s: State, recv: bool, e: Event)
    requires Gentle(e) && ValidEvent(e) && !Reserved(s)
    ensures !Reserved(Transition(s, recv, e.frame, e.endStream).to)
  {
  }

  lemma {:induction false} GentleStep(p: Pair, x: Action)
    requires Enabled(p, x) && GentlePair(p) && GentleAction(x)
    ensures GentlePair(Next(p, x))
    ensures Finished(Next(p, x).a) ==> Finished(p.a) || (x.SendA? && x.e.endStream)
    ensures Finished(Next(p, x).b) ==> Finished(p.b) || (x.SendB? && x.e.endStream)
  {
    match x
    case SendA(e) => GentleStays(p.a, false, e); if !Finished(p.a) { OnlyEndFinishes(p.a, false, e); }
    case SendB(e) => GentleStays(p.b, false, e); if !Finished(p.b) { OnlyEndFinishes(p.b, false, e); }
    case ReceiveA => GentleStays(p.a, true, p.ba[0]); if !Finished(p.a) { OnlyEndFinishes(p.a, true, p.ba[0]); }
    case ReceiveB => GentleStays(p.b, true, p.ab[0]); if !Finished(p.b) { OnlyEndFinishes(p.b, true, p.ab[0]); }
  }

  lemma {:induction false} GentleRun(p: Pair, run: seq<Action>)
    requires IsRun(p, run) && GentlePair(p) && forall x :: x in run ==> GentleAction(x)
    ensures Finished(After(p, run).a) ==> Finished(p.a) || SomeEnd(run, true)
    ensures Finished(After(p, run).b) ==> Finished(p.b) || SomeEnd(run, false)
    decreases |run|
  {
    if run != [] {
      GentleStep(p, run[0]);
      GentleRun(Next(p, run[0]), run[1..]);
      assert run[0] in run && forall x :: x in run[1..] ==> x in run;
    }
  }

  /** Once each end has sent END_STREAM and both links are drained, both ends are closed, whatever else was sent.
      Without resets and promises this is the only way: both ends are closed if and only if each has sent
      END_STREAM. */
  lemma {:induction false} ClosedIff(run: seq<Action>)
    requires IsRun(Pair(Idle, Idle, [], []), run)
    ensures var p := After(Pair(Idle, Idle, [], []), run);
      p.ab == [] && p.ba == [] ==>
        && (SomeEnd(run, true) && SomeEnd(run, false) ==> p.a == p.b == Closed)
        && ((forall x :: x in run ==> GentleAction(x)) ==>
              (p.a == p.b == Closed <==> SomeEnd(run, true) && SomeEnd(run, false)))
  {
    Convergence(run);
    EndsFinish(Pair(Idle, Idle, [], []), run);
    if forall x :: x in run ==> GentleAction(x) { GentleRun(Pair(Idle, Idle, [], []), run); }
  }

  lemma {:induction false} RunFrom(p: Pair, x: Action, p1: Pair, run: seq<Action>)
    requires Enabled(p, x) && Next(p, x) == p1 && IsRun(p1, run)
    ensures IsRun(p, [x] + run) && After(p, [x] + run) == After(p1, run)
  {
    assert ([x] + run)[1..] == run;
  }

  /** A request and its response of one HEADERS frame each, delivered: the stream is closed on both sides. */
  lemma {:induction false} Exchange()
    ensures var last, p := Event(Headers, true), Pair(Idle, Idle, [], []);
      var run := [SendA(last)] + ([ReceiveB] + ([SendB(last)] + ([ReceiveA] + [])));
      IsRun(p, run) && After(p, run) == Pair(Closed, Closed, [], [])
  {
    var last, done := Event(Headers, true), Pair(Closed, Closed, [], []);
    var p1 := Pair(HalfClosedLocal, Idle, [last], []);
    var p2 := Pair(HalfClosedLocal, HalfClosedRemote, [], []);
    var p3 := Pair(HalfClosedLocal, Closed, [], [last]);
    assert IsRun(done, []);
    RunFrom(p3, ReceiveA, done, []);
    RunFrom(p2, SendB(last), p3, [ReceiveA] + []);
    RunFrom(p1, ReceiveB, p2, [SendB(last)] + ([ReceiveA] + []));
    RunFrom(Pair(Idle, Idle, [], []), SendA(last), p1, [ReceiveB] + ([SendB(last)] + ([ReceiveA] + [])));
  }
}
