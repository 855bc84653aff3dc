/** The two-class write queue and the loop that empties it: control frames overtake ordinary ones except
    those added at one moment, each class keeps its order, nothing is lost, and written output is always
    flushed eventually. */
module WriteQueue {
  import opened Wrappers

  /** A queued frame; a nil frame asks for a flush. */
  datatype Item<T> = Item(frame: Option<T>, control: bool)

  datatype Queue<T> = Queue(cbuf: seq<Item<T>>, buf: seq<Item<T>>, ch: Option<Item<T>>)

  /** Moves the head of a buffer into the channel if that is free. */
  function Offer<T>(q: Queue<T>, control: bool): (q': Queue<T>) {
    if q.ch.Some? then q
    else if control && q.cbuf != [] then q.(cbuf := q.cbuf[1..], ch := Some(q.cbuf[0]))
    else if !control && q.buf != [] then q.(buf := q.buf[1..], ch := Some(q.buf[0]))
    else q
  }

  function Add<T>(q: Queue<T>, x: Item<T>): (q': Queue<T>) {
    if x.control then Offer(q.(cbuf := q.cbuf + [x]), true) else Offer(q.(buf := q.buf + [x]), false)
  }

  /** Refills the channel, control frames first, and tells whether a frame was buffered. */
  function Set<T>(q: Queue<T>): (r: (Queue<T>, bool)) {
    if q.cbuf != [] then (Offer(q, true), true)
    else if q.buf != [] then (Offer(q, false), true)
    else (q, false)
  }

  class WriteQueueObject<T(==)> {
    var cbuf: seq<Item<T>>
    var buf: seq<Item<T>>
    var ch: Option<Item<T>>

    ghost function View(): (q: Queue<T>)
      reads this
    {
      Queue(cbuf, buf, ch)
    }

    constructor ()
      ensures View() == Queue([], [], None)
    {
      cbuf, buf, ch := [], [], None;
    }

    method AddFrame(x: Item<T>)
      modifies this
      ensures View() == Add(old(View()), x)
    {
      if x.control {
        cbuf := cbuf + [x];
        if ch == None {
          ch, cbuf := Some(cbuf[0]), cbuf[1..];
        }
      } else {
        buf := buf + [x];
        if ch == None {
          ch, buf := Some(buf[0]), buf[1..];
        }
      }
    }

    method SetNext() returns (buffered: bool)
      modifies this
      ensures (View(), buffered) == Set(old(View()))
    {
      if |cbuf| > 0 {
        if ch == None {
          ch, cbuf := Some(cbuf[0]), cbuf[1..];
        }
        return true;
      } else if |buf| > 0 {
        if ch == None {
          ch, buf := Some(buf[0]), buf[1..];
        }
        return true;
      }
      return false;
    }
  }

  // ----- The write loop, interleaved with any number of writers

  /** Where the loop stands: at the channel, between receive and set, with the frame in hand. */
  datatype Phase<T> = Waiting | Received(x: Item<T>) | Holding(x: Item<T>, flush: bool)

  /** added and done are the histories of what was queued and what the loop has dealt with. */
  datatype System<T> = System(q: Queue<T>, phase: Phase<T>, unflushed: nat, added: seq<Item<T>>, done: seq<Item<T>>)

  datatype Action<T> = AddItem(x: Item<T>) | Receive | Refill | Process

  predicate Enabled<T>(y: System<T>, a: Action<T>) {
    match a
    case AddItem(_) => true
    case Receive => y.phase == Waiting && y.q.ch.Some?
    case Refill => y.phase.Received?
    case Process => y.phase.Holding?
  }

  function Next<T>(y: System<T>, a: Action<T>): (y': System<T>)
    requires Enabled(y, a)
  {
    match a
    case AddItem(x) => y.(q := Add(y.q, x), added := y.added + [x])
    case Receive => y.(q := y.q.(ch := None), phase := Received(y.q.ch.value))
    case Refill =>
      var (q, buffered) := Set(y.q);
      y.(q := q, phase := Holding(y.phase.x, !buffered))
    case Process =>
      var x := y.phase.x;
      var written := y.unflushed + (if x.frame.Some? then 1 else 0);
      y.(phase := Waiting, done := y.done + [x], unflushed := if x.frame == None || y.phase.flush then 0 else written)
  }

  function OfClass<T>(s: seq<Item<T>>, control: bool): (r: seq<Item<T>>) {
    if s == [] then []
    else OfClass(s[..|s| - 1], control) + (if s[|s| - 1].control == control then [s[|s| - 1]] else [])
  }

  lemma {:induction false} OfClassAppend<T>(s: seq<Item<T>>, x: Item<T>, control: bool)
    ensures OfClass(s + [x], control) == OfClass(s, control) + (if x.control == control then [x] else [])
  {
    assert (s + [x])[..|s|] == s;
  }

  function InHand<T>(y: System<T>, control: bool): (r: seq<Item<T>>) {
    if y.phase != Waiting && y.phase.x.control == control then [y.phase.x] else []
  }

  function InChannel<T>(q: Queue<T>, control: bool): (r: seq<Item<T>>) {
    if q.ch.Some? && q.ch.value.control == control then [q.ch.value] else []
  }

  function Buffered<T>(q: Queue<T>, control: bool): (r: seq<Item<T>>) {
    InChannel(q, control) + (if control then q.cbuf else q.buf)
  }

  predicate Classified<T>(q: Queue<T>) {
    && (forall i :: 0 <= i < |q.cbuf| ==> q.cbuf[i].control)
    && (forall i :: 0 <= i < |q.buf| ==> !q.buf[i].control)
  }

  ghost predicate Inv<T>(y: System<T>) {
    && Classified(y.q)
    && (forall c :: OfClass(y.added, c) == OfClass(y.done, c) + InHand(y, c) + Buffered(y.q, c))
    && (!y.phase.Received? && y.q.ch == None ==> y.q.cbuf == [] && y.q.buf == [])
    && (y.phase.Holding? && !y.phase.flush ==> y.q.ch.Some?)
    && (y.phase == Waiting && y.unflushed > 0 ==> y.q.ch.Some?)
  }

  /** Moving the head of a buffer into the free channel changes neither class. */
  lemma {:induction false} OfferKeeps<T>(q: Queue<T>, control: bool, c: bool)
    requires Classified(q)
    ensures Classified(Offer(q, control)) && Buffered(Offer(q, control), c) == Buffered(q, c)
  {
    var q' := Offer(q, control);
    if q.ch == None {
      if control && q.cbuf != [] {
        assert [q.cbuf[0]] + q.cbuf[1..] == q.cbuf;
      } else if !control && q.buf != [] {
        assert [q.buf[0]] + q.buf[1..] == q.buf;
      }
    }
  }

  lemma {:induction false} AddBuffers<T>(q: Queue<T>, x: Item<T>, c: bool)
    requires Classified(q)
    ensures Classified(Add(q, x)) && Buffered(Add(q, x), c) == Buffered(q, c) + (if x.control == c then [x] else [])
  {
    var q1 := if x.control then q.(cbuf := q.cbuf + [x]) else q.(buf := q.buf + [x]);
    OfferKeeps(q1, x.control, c);
    assert Buffered(q1, c) == Buffered(q, c) + (if x.control == c then [x] else []);
  }

  lemma {:induction false} AddKeeps<T>(y: System<T>, x: Item<T>)
    requires Inv(y)
    ensures Inv(Next(y, AddItem(x)))
  {
    var y' := Next(y, AddItem(x));
    forall c ensures OfClass(y'.added, c) == OfClass(y'.done, c) + InHand(y', c) + Buffered(y'.q, c) {
      OfClassAppend(y.added, x, c);
      AddBuffers(y.q, x, c);
      Assoc(OfClass(y.done, c) + InHand(y, c), Buffered(y.q, c), if x.control == c then [x] else []);
    }
    AddBuffers(y.q, x, true);
  }

  lemma {:induction false} ReceiveKeeps<T>(y: System<T>)
    requires Inv(y) && Enabled(y, Receive)
    ensures Inv(Next(y, Receive))
  {
    var y' := Next(y, Receive);
    forall c
      ensures OfClass(y'.added, c) == OfClass(y'.done, c) + InHand(y', c) + Buffered(y'.q, c)
    {
      assert InHand(y, c) == [];
      assert OfClass(y.done, c) + [] + (InChannel(y.q, c) + (if c then y.q.cbuf else y.q.buf)) ==
             OfClass(y.done, c) + InChannel(y.q, c) + ([] + (if c then y.q.cbuf else y.q.buf));
      assert InHand(y', c) == InChannel(y.q, c) && InChannel(y'.q, c) == [];
    }
  }

  lemma {:induction false} RefillKeeps<T>(y: System<T>)
    requires Inv(y) && Enabled(y, Refill)
    ensures Inv(Next(y, Refill))
  {
    OfferKeeps(y.q, true, true);
    OfferKeeps(y.q, true, false);
    OfferKeeps(y.q, false, true);
    OfferKeeps(y.q, false, false);
  }

  lemma {:induction false} ProcessKeeps<T>(y: System<T>)
    requires Inv(y) && Enabled(y, Process)
    ensures Inv(Next(y, Process))
  {
    var y', x := Next(y, Process), y.phase.x;
    forall c
      ensures OfClass(y'.added, c) == OfClass(y'.done, c) + InHand(y', c) + Buffered(y'.q, c)
    {
      OfClassAppend(y.done, x, c);
      assert OfClass(y'.done, c) == OfClass(y.done, c) + InHand(y, c);
      assert OfClass(y'.done, c) + [] == OfClass(y'.done, c);
    }
  }

  lemma {:induction false} StepKeeps<T>(y: System<T>, a: Action<T>)
    requires Inv(y) && Enabled(y, a)
    ensures Inv(Next(y, a))
  {
    match a
    case AddItem(x) => AddKeeps(y, x);
    case Receive => ReceiveKeeps(y);
    case Refill => RefillKeeps(y);
    case Process => ProcessKeeps(y);
  }

  ghost predicate IsRun<T(!new)>(y: System<T>, run: seq<Action<T>>)
    decreases |run|
  {
    run == [] || (Enabled(y, run[0]) && IsRun(Next(y, run[0]), run[1..]))
  }

  ghost function After<T(!new)>(y: System<T>, run: seq<Action<T>>): (y': System<T>)
    requires IsRun(y, run)
    decreases |run|
  {
    if run == [] then y else After(Next(y, run[0]), run[1..])
  }

  lemma {:induction false} RunKeeps<T(!new)>(y: System<T>, run: seq<Action<T>>)
    requires Inv(y) && IsRun(y, run)
    ensures Inv(After(y, run))
    decreases |run|
  {
    if run != [] {
      StepKeeps(y, run[0]);
      RunKeeps(Next(y, run[0]), run[1..]);
    }
  }

  function Start<T>(): (y: System<T>) {
    System(Queue([], [], None), Waiting, 0, [], [])
  }

  /** In every run the frames dealt with are, class by class, a prefix of those added; when the loop
      waits at an empty channel all of them are done and all output is flushed. */
  lemma {:induction false} Delivery<T(!new)>(run: seq<Action<T>>)
    requires IsRun(Start(), run)
    ensures var y := After(Start(), run);
      && (forall c :: OfClass(y.done, c) <= OfClass(y.added, c))
      && (y.phase == Waiting && y.q.ch == None ==>
            y.unflushed == 0 && forall c :: OfClass(y.done, c) == OfClass(y.added, c))
  {
    var s: System<T> := Start();
    assert Inv(s);
    RunKeeps(s, run);
    DoneIsPrefix(After(s, run));
  }

  lemma {:induction false} DoneIsPrefix<T>(y: System<T>)
    requires Inv(y)
    ensures forall c :: OfClass(y.done, c) <= OfClass(y.added, c)
    ensures y.phase == Waiting && y.q.ch == None ==>
      y.unflushed == 0 && forall c :: OfClass(y.done, c) == OfClass(y.added, c)
  {
    forall c ensures OfClass(y.done, c) <= OfClass(y.added, c) {
      Assoc(OfClass(y.done, c), InHand(y, c), Buffered(y.q, c));
    }
  }

  // ----- Who overtakes whom

  /** An ordinary frame is added after the loop has emptied the channel and before it refills it. */
  predicate Intrudes<T>(y: System<T>, a: Action<T>) {
    a.AddItem? && !a.x.control && y.phase.Received? && y.q.ch == None
  }

  /** While control frames are buffered, an ordinary frame enters the channel in a step of any kind if and only
      if that step adds one between receive and refill. So a refill lets one in only with no control frame
      buffered. A refill that finds nothing buffered at all, and no other, asks for a flush. */
  lemma {:induction false} OrdinaryEntersIff<T>(y: System<T>, a: Action<T>)
    requires Inv(y) && Enabled(y, a)
    ensures var ch := Next(y, a).q.ch;
      y.q.cbuf != [] ==> (ch != y.q.ch && ch.Some? && !ch.value.control <==> Intrudes(y, a))
    ensures a.Refill? && y.q.ch == None && y.q.cbuf != [] ==> Next(y, a).q.ch == Some(y.q.cbuf[0])
    ensures a.Refill? && y.q.ch == None && y.q.cbuf == [] && y.q.buf != [] ==> Next(y, a).q.ch == Some(y.q.buf[0])
    ensures a.Refill? && y.q.ch.Some? ==> Next(y, a).q == y.q
    ensures a.Refill? ==> (Next(y, a).phase.flush <==> y.q.cbuf == [] && y.q.buf == [])
  {
  }

  /** Adding to an empty channel brings in the oldest frame of the same class. */
  lemma {:induction false} AddEnters<T>(y: System<T>, x: Item<T>)
    requires Inv(y)
    ensures var q := Next(y, AddItem(x)).q;
      && (y.q.ch.Some? ==> q.ch == y.q.ch)
      && (y.q.ch == None ==> Some(((if x.control then y.q.cbuf else y.q.buf) + [x])[0]) == q.ch && q.ch.value.control == x.control)
  {
  }

  /** Ordinary frames that are done, in hand or in the channel. */
  function Ahead<T>(y: System<T>): (n: nat) {
    |OfClass(y.done, false)| + |InHand(y, false)| + |InChannel(y.q, false)|
  }

  lemma {:induction false} OvertakeStep<T>(y: System<T>, a: Action<T>)
    requires Inv(y) && Enabled(y, a) && y.q.cbuf != []
    ensures Ahead(Next(y, a)) == Ahead(y) + if Intrudes(y, a) then 1 else 0
  {
    if a.Process? { OfClassAppend(y.done, y.phase.x, false); }
  }

  /** Control frames are buffered all along the run. */
  ghost predicate Waits<T(!new)>(y: System<T>, run: seq<Action<T>>)
    requires IsRun(y, run)
    decreases |run|
  {
    run == [] || (y.q.cbuf != [] && Waits(Next(y, run[0]), run[1..]))
  }

  ghost function Intrusions<T(!new)>(y: System<T>, run: seq<Action<T>>): (n: nat)
    requires IsRun(y, run)
    decreases |run|
  {
    if run == [] then 0 else (if Intrudes(y, run[0]) then 1 else 0) + Intrusions(Next(y, run[0]), run[1..])
  }

  lemma {:induction false} OvertakeRun<T(!new)>(y: System<T>, run: seq<Action<T>>)
    requires Inv(y) && IsRun(y, run) && Waits(y, run)
    ensures Ahead(After(y, run)) == Ahead(y) + Intrusions(y, run)
    decreases |run|
  {
    if run != [] {
      OvertakeStep(y, run[0]);
      StepKeeps(y, run[0]);
      OvertakeRun(Next(y, run[0]), run[1..]);
    }
  }

  /** From any reachable state on, and as long as control frames stay buffered, the ordinary frames done before
      them are at most the one in hand, the one in the channel, and those added between a receive and its
      refill. */
  lemma {:induction false} Overtaken<T(!new)>(run: seq<Action<T>>, more: seq<Action<T>>)
    requires IsRun(Start(), run) && IsRun(After(Start(), run), more) && Waits(After(Start(), run), more)
    ensures var y := After(Start(), run);
      && Ahead(After(y, more)) == Ahead(y) + Intrusions(y, more)
      && |OfClass(After(y, more).done, false)| <= |OfClass(y.done, false)| + 2 + Intrusions(y, more)
  {
    var s: System<T> := Start();
    assert Inv(s);
    RunKeeps(s, run);
    OvertakeRun(After(s, run), more);
  }

  /** An ordinary frame, a control frame, and another ordinary frame that comes between receive and refill. */
  function IntrudingRun<T>(a: Item<T>, c: Item<T>, b: Item<T>): (run: seq<Action<T>>) {
    [AddItem(a)] + ([AddItem(c)] + ([Receive] + ([AddItem(b)] + ([Refill] + ([Process] + ([Receive] + ([Refill] + ([Process] + []))))))))
  }

  lemma {:induction false} RunFrom<T(!new)>(y: System<T>, x: Action<T>, y1: System<T>, run: seq<Action<T>>)
    requires Enabled(y, x) && Next(y, x) == y1 && IsRun(y1, run)
    ensures IsRun(y, [x] + run) && After(y, [x] + run) == After(y1, run)
  {
    assert ([x] + run)[1..] == run;
  }

  /** A run in which the last frame added is done before the control frame. */
  lemma {:induction false} IntruderFirst<T(!new)>(a: Item<T>, c: Item<T>, b: Item<T>)
    requires !a.control && c.control && !b.control
    ensures IsRun(Start(), IntrudingRun(a, c, b))
    ensures var y := After(Start(), IntrudingRun(a, c, b)); y.added == [a, c, b] && y.done == [a, b] && y.q.ch == Some(c)
  {
    var y1 := System(Queue([], [], Some(a)), Waiting, 0, [a], []);
    var y2 := System(Queue([c], [], Some(a)), Waiting, 0, [a, c], []);
    var y3 := System(Queue([c], [], None), Received(a), 0, [a, c], []);
    var y4 := System(Queue([c], [], Some(b)), Received(a), 0, [a, c, b], []);
    var y5 := Next(y4, Refill);
    var y6 := Next(y5, Process);
    var y7 := Next(y6, Receive);
    var y8 := Next(y7, Refill);
    var y9 := Next(y8, Process);
    assert y9.done == [a, b];
    assert IsRun(y9, []);
    RunFrom(y8, Process, y9, []);
    RunFrom(y7, Refill, y8, [Process] + []);
    RunFrom(y6, Receive, y7, [Refill] + ([Process] + []));
    RunFrom(y5, Process, y6, [Receive] + ([Refill] + ([Process] + [])));
    RunFrom(y4, Refill, y5, [Process] + ([Receive] + ([Refill] + ([Process] + []))));
    RunFrom(y3, AddItem(b), y4, [Refill] + ([Process] + ([Receive] + ([Refill] + ([Process] + [])))));
    RunFrom(y2, Receive, y3, [AddItem(b)] + ([Refill] + ([Process] + ([Receive] + ([Refill] + ([Process] + []))))));
    RunFrom(y1, AddItem(c), y2, [Receive] + ([AddItem(b)] + ([Refill] + ([Process] + ([Receive] + ([Refill] + ([Process] + [])))))));
    assert Next(Start(), AddItem(a)) == y1;
    RunFrom(Start(), AddItem(a), y1, [AddItem(c)] + ([Receive] + ([AddItem(b)] + ([Refill] + ([Process] + ([Receive] + ([Refill] + ([Process] + []))))))));
  }
}
