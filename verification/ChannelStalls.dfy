/**
 * When flow control stalls: exactly which failures make it possible, at every offer,
 * and that a stall lasts. The run that stalls also shows bytes that a read took and never
 * returned, followed by end of file.
 */
module ChannelStalls {
  import opened Octets
  import opened ChannelSpec
  import opened ChannelPair
  import opened ChannelInvariants
  import opened ChannelBooks
  import opened ChannelTheorems
  import opened ChannelProgress

  // ---- A stall lasts ----

  lemma {:induction false} LoadOfMember(q: seq<Packet>, p: Packet)
    requires p in q
    ensures p.Data? ==> |p.payload| <= Load(q)
    ensures p.WindowAdjust? ==> p.bytes <= Credit(q)
  {
    if q[0] != p {
      LoadOfMember(q[1..], p);
    }
  }

  /** Nothing the sender does gives it a window. */
  lemma SenderStaysStalled(y: System, a: Action)
    requires Inv(y) && Stalled(y)
    ensures Stalled(StepLeft(y, a))
  {
    match a
    case ReadSome(s, count, sendOk) => ReaderSendsNoData(y, s, count, sendOk);
    case Deliver(allocOk) => DeliveryAddsNothing(y, allocOk);
    case CloseCall(sendOk) => ClosingSendsNoData(y, JustClose, sendOk);
    case FreeCall(sendOk) => ClosingSendsNoData(y, ThenFree, sendOk);
    case Flushed(flush, sendOk) => FlushedSendsNoData(y, flush, sendOk);
    case SendEof(_) => QueueAppend(y.out.flight, [Eof]);
    case _ =>
  }

  lemma DeliveryAddsNothing(y: System, allocOk: bool)
    requires Inv(y) && Stalled(y)
    ensures Stalled(DoDeliver(y, allocOk))
  {
    if y.back.flight != [] {
      LoadOfMember(y.back.flight, y.back.flight[0]);
    }
  }

  lemma {:induction false} ReaderSendsNoData(y: System, s: Stream, count: nat, sendOk: bool)
    requires Inv(y) && Stalled(y)
    ensures Stalled(DoRead(y, s, count, sendOk))
  {
    var x := Read(y.left.chan, s, count, sendOk);
    ReadEffect(y.left.chan, s, count, sendOk);
    QueueAppend(y.out.flight, AdjustPackets(x.granted));
    QueueOne(WindowAdjust(x.granted));
  }

  lemma ClosingSendsNoData(y: System, goal: Goal, sendOk: bool)
    requires Stalled(y)
    ensures Stalled(StartClose(y, goal, sendOk)) && Stalled(SendClose(y, goal, sendOk)) && Stalled(AfterGoal(y, goal))
  {
    QueueAppend(y.out.flight, [Eof]);
    QueueAppend(y.out.flight, [Close]);
  }

  lemma FlushedSendsNoData(y: System, flush: Rc, sendOk: bool)
    requires Stalled(y)
    ensures Stalled(DoFlushed(y, flush, sendOk))
  {
    match y.left.pc
    case FlushEof(goal) =>
      var y1 := y.(left := EofFlushEnds(y.left, flush));
      ClosingSendsNoData(y1, goal, sendOk);
    case _ =>
  }

  /** Nothing the receiver does gives the sender a window: it has nothing to read. */
  lemma ReceiverStaysStalled(y: System, a: Action)
    requires Inv(y) && Stalled(y.Swap())
    ensures Stalled(StepLeft(y, a).Swap())
  {
    match a
    case ReadSome(s, count, sendOk) => NothingToRead(y, s, count, sendOk);
    case WritePacket(sendOk) => WritingGrantsNothing(y, sendOk);
    case Deliver(allocOk) => DeliveryStalls(y, allocOk);
    case CloseCall(sendOk) => ClosingGrantsNothing(y, JustClose, sendOk);
    case FreeCall(sendOk) => ClosingGrantsNothing(y, ThenFree, sendOk);
    case Flushed(flush, sendOk) => FlushedGrantsNothing(y, flush, sendOk);
    case SendEof(_) => QueueAppend(y.out.flight, [Eof]);
    case _ =>
  }

  lemma NothingToRead(y: System, s: Stream, count: nat, sendOk: bool)
    requires Stalled(y.Swap())
    ensures Stalled(DoRead(y, s, count, sendOk).Swap())
  {
    assert y.left.chan.Buffer(s) == [];
    assert Read(y.left.chan, s, count, sendOk).granted == 0;
    assert y.out.flight + [] == y.out.flight;
  }

  lemma WritingGrantsNothing(y: System, sendOk: bool)
    requires Inv(y) && Stalled(y.Swap())
    ensures Stalled(DoWritePacket(y, sendOk).Swap())
  {
    if y.left.pc.Writing? {
      var n := PacketLength(y.left.chan, |y.left.pc.rest|);
      QueueAppend(y.out.flight, [Data(y.left.pc.stream, y.left.pc.rest[..n])]);
    }
  }

  lemma DeliveryStalls(y: System, allocOk: bool)
    requires Inv(y) && Stalled(y.Swap())
    ensures Stalled(DoDeliver(y, allocOk).Swap())
  {
    if y.back.flight != [] {
      var p := y.back.flight[0];
      LoadOfMember(y.back.flight, p);
      assert p in y.back.Sent();
    }
  }

  lemma ClosingGrantsNothing(y: System, goal: Goal, sendOk: bool)
    requires Stalled(y.Swap())
    ensures Stalled(StartClose(y, goal, sendOk).Swap()) && Stalled(SendClose(y, goal, sendOk).Swap())
    ensures Stalled(AfterGoal(y, goal).Swap())
  {
    QueueAppend(y.out.flight, [Eof]);
    QueueAppend(y.out.flight, [Close]);
  }

  lemma FlushedGrantsNothing(y: System, flush: Rc, sendOk: bool)
    requires Stalled(y.Swap())
    ensures Stalled(DoFlushed(y, flush, sendOk).Swap())
  {
    match y.left.pc
    case FlushEof(goal) =>
      var y1 := y.(left := EofFlushEnds(y.left, flush));
      ClosingGrantsNothing(y1, goal, sendOk);
    case _ =>
  }

  /** No step of either end ever ends a stall. */
  lemma {:induction false} StalledForever(y: System, steps: seq<(Side, Action)>)
    requires Inv(y) && Stalled(y)
    ensures Stalled(Run(y, steps))
    decreases |steps|
  {
    if steps != [] {
      var a := steps[0].1;
      if steps[0].0.Left? {
        StepLeftKeeps(y, a);
        SenderStaysStalled(y, a);
      } else {
        StepLeftKeeps(y.Swap(), a);
        ReceiverStaysStalled(y.Swap(), a);
      }
      StalledForever(Step(y, steps[0].0, a), steps[1..]);
    }
  }

  // ---- A stall at every offer ----

  function Writes(n: nat): seq<(Side, Action)> {
    seq(n, i => (Left, WritePacket(true)))
  }

  function Zeros(n: nat): seq<byte> {
    seq(n, i => 0)
  }

  /** One stdout write as long as the peer's window. */
  function FillWindow(n: nat): seq<(Side, Action)> {
    [(Left, BeginWrite(Stdout, Zeros(n)))] + Writes(n)
  }

  ghost predicate OnlyStdout(q: seq<Packet>) {
    forall p :: p in q ==> p.Data? && p.stream.Stdout?
  }

  /** What writing on stdout leaves alone. */
  ghost predicate OnlyWrote(y: System, z: System) {
    && z.right == y.right && z.back == y.back
    && z.out.received == y.out.received && z.out.ledger == y.out.ledger
    && z.out.history.(wroteOut := y.out.history.wroteOut) == y.out.history
    && z.left.chan.(remoteWindow := y.left.chan.remoteWindow) == y.left.chan
  }

  /** A stdout write that fits the window, and its sender can send. */
  ghost predicate Fits(y: System) {
    && y.left.pc.Writing? && y.left.pc.stream.Stdout? && |y.left.pc.rest| == y.left.chan.remoteWindow
    && y.left.chan.state.Open? && !y.left.chan.flags.sessionError && y.left.chan.remoteMaxPacket > 0
  }

  lemma OnePacket(y: System)
    requires Fits(y) && OnlyStdout(y.out.flight)
    ensures
      var z := StepLeft(y, WritePacket(true));
      && Fits(z) && OnlyWrote(y, z) && OnlyStdout(z.out.flight)
      && (if y.left.chan.remoteWindow == 0 then z == y else z.left.chan.remoteWindow < y.left.chan.remoteWindow)
  {
  }

  lemma {:induction false} AllWritten(y: System, n: nat)
    requires Fits(y) && OnlyStdout(y.out.flight) && y.left.chan.remoteWindow <= n
    ensures
      var z := Run(y, Writes(n));
      Fits(z) && OnlyWrote(y, z) && OnlyStdout(z.out.flight) && z.left.chan.remoteWindow == 0
    decreases n
  {
    if n > 0 {
      var y1 := StepLeft(y, WritePacket(true));
      OnePacket(y);
      assert Writes(n)[1..] == Writes(n - 1);
      AllWritten(y1, n - 1);
    }
  }

  /** The sender's window is used up; what it sent is in flight. */
  function Filled(l: Offer, r: Offer): System {
    Run(Start(l, r), FillWindow(r.window))
  }

  lemma FilledState(l: Offer, r: Offer)
    requires Offered(l, r)
    ensures
      var y := Filled(l, r);
      Fits(y) && OnlyWrote(Start(l, r), y) && OnlyStdout(y.out.flight) && y.left.chan.remoteWindow == 0
  {
    var y1 := StepLeft(Start(l, r), BeginWrite(Stdout, Zeros(r.window)));
    assert FillWindow(r.window)[1..] == Writes(r.window);
    AllWritten(y1, r.window);
    assert OnlyWrote(Start(l, r), y1);
  }

  lemma {:induction false} SomeDelivered(y: System, n: nat)
    requires n <= |y.back.flight|
    ensures
      var z := Run(y, Deliveries(Left, n));
      OnlyReceived(y, z) && z.back.flight == y.back.flight[n..]
    decreases n
  {
    if n > 0 {
      OneDelivery(y);
      assert Deliveries(Left, n)[1..] == Deliveries(Left, n - 1);
      SomeDelivered(StepLeft(y, Deliver(true)), n - 1);
    }
  }

  /** The same for the right end, by symmetry. */
  lemma {:induction false} SomeDeliveredRight(y: System, n: nat)
    requires n <= |y.out.flight|
    ensures
      var z := Run(y, Deliveries(Right, n));
      OnlyReceived(y.Swap(), z.Swap()) && z.out.flight == y.out.flight[n..]
  {
    SomeDelivered(y.Swap(), n);
    Mirrored(y.Swap(), Deliveries(Left, n));
    assert Flip(Deliveries(Left, n)) == Deliveries(Right, n);
    assert y.Swap().Swap() == y;
  }

  /** A write has used the window up, and the reader has read nothing yet. */
  ghost predicate WindowSpent(y: System, window: nat) {
    && y.left.chan.remoteWindow == 0 && y.left.pc.Writing? && Fits(y) && y.back.flight == []
    && y.right.pc.Idle? && !y.right.chan.flags.sessionError && y.right.chan.state.Open? && !y.right.chan.flags.remoteEof
    && !y.right.chan.flags.released && !y.right.chan.flags.delayedClose && y.right.chan.stderr == []
    && y.out.Took(Stdout) == y.out.Returned(Stdout) == [] && y.out.Took(Stderr) == []
    && !y.out.ledger.dropped && !y.out.ledger.growFailed
    && |y.right.chan.stdout| + Load(y.out.flight) == window && y.right.chan.localWindow == Load(y.out.flight)
  }

  lemma {:induction false} OnlyStdoutIsLoad(q: seq<Packet>)
    requires OnlyStdout(q)
    ensures PayloadOf(q, Stderr) == []
  {
    if q != [] {
      OnlyStdoutIsLoad(q[1..]);
    }
  }

  /** What of a filled window has arrived is buffered. */
  lemma SpentState(l: Offer, r: Offer, n: nat)
    requires Offered(l, r) && n <= |Filled(l, r).out.flight|
    ensures
      var z := Run(Filled(l, r), Deliveries(Right, n));
      && WindowSpent(z, r.window) && z.out.flight == Filled(l, r).out.flight[n..]
      && OnlyStdout(z.out.flight) && Inv(z) && Books(z)
  {
    var y := Filled(l, r);
    var z := Run(y, Deliveries(Right, n));
    FilledState(l, r);
    SomeDeliveredRight(y, n);
    Reached(l, r, FillWindow(r.window));
    EveryRun(y, Deliveries(Right, n));
    BooksKept(y, Deliveries(Right, n));
    assert y.out.Sent() == y.out.flight;
    assert forall p :: p in z.out.received ==> p in z.out.Sent();
    OnlyStdoutIsLoad(z.out.received);
    Spent(z, r);
  }

  lemma Spent(z: System, r: Offer)
    requires Inv(z) && Fits(z) && z.left.chan.remoteWindow == 0 && z.back.flight == []
    requires z.right.pc.Idle? && !z.right.chan.flags.closedLocal && !z.right.chan.flags.sessionError
    requires z.out.Took(Stdout) == z.out.Returned(Stdout) == [] && z.out.Took(Stderr) == []
    requires z.out.ledger.(releases := 0) == Fresh(r).ledger && PayloadOf(z.out.received, Stderr) == []
    requires OnlyStdout(z.out.Sent())
    ensures WindowSpent(z, r.window)
  {
    assert !z.left.chan.flags.closedLocal && Close !in z.out.Sent() && Eof !in z.out.Sent();
    assert Close !in z.out.received && Eof !in z.out.received;
    assert z.out.Took(Stderr) + z.right.chan.Buffer(Stderr) == [];
  }

  // ---- One failed adjust ----

  function AllArrived(l: Offer, r: Offer): seq<(Side, Action)> {
    FillWindow(r.window) + Deliveries(Right, |Filled(l, r).out.flight|)
  }

  /** The reader takes everything, and its window adjust cannot be sent. */
  function FailedRead(l: Offer, r: Offer): seq<(Side, Action)> {
    AllArrived(l, r) + [(Right, ReadSome(Stdout, r.window, false))]
  }

  lemma OneMoreStep(y: System, steps: seq<(Side, Action)>, side: Side, a: Action)
    ensures Run(y, steps + [(side, a)]) == Step(Run(y, steps), side, a)
  {
    RunAppend(y, steps, [(side, a)]);
    var y1 := Run(y, steps);
    assert Run(y1, [(side, a)]) == Run(Step(y1, side, a), []);
  }

  lemma FailedReadHides(y: System, window: nat)
    requires WindowSpent(y, window) && y.out.flight == [] && 0 < window
    ensures
      var z := Step(y, Right, ReadSome(Stdout, window, false));
      && z.left == y.left && z.right == y.right.(chan := y.right.chan.(stdout := []))
      && z.out.flight == [] && z.back.flight == []
      && z.out.Took(Stdout) == y.right.chan.stdout && z.out.Returned(Stdout) == []
      && !z.out.ledger.dropped && z.out.ledger.growFailed
  {
    var c := y.right.chan;
    assert c.stdout[..|c.stdout|] == c.stdout && c.stdout[|c.stdout|..] == [];
    var x := Read(c, Stdout, window, false);
    assert AfterTake(c, Stdout, window) == c.(stdout := []);
    assert x == Reading(c.(stdout := []), 0, Error, c.stdout);
    assert [] + c.stdout == c.stdout;
  }

  /** At every offer, one window adjust that cannot be sent is enough. */
  lemma AnyOfferStalls(l: Offer, r: Offer)
    requires Offered(l, r)
    ensures
      var y := Run(Start(l, r), FailedRead(l, r));
      && Stalled(y) && !y.out.ledger.dropped && y.out.flight == [] && y.right.pc.Idle?
      && |y.out.Took(Stdout)| == r.window && y.out.Returned(Stdout) == []
      && Fits(y) && !y.right.chan.flags.sessionError && !y.right.chan.flags.released
  {
    var n := |Filled(l, r).out.flight|;
    SpentState(l, r, n);
    RunAppend(Start(l, r), FillWindow(r.window), Deliveries(Right, n));
    OneMoreStep(Start(l, r), AllArrived(l, r), Right, ReadSome(Stdout, r.window, false));
    FailedReadHides(Run(Start(l, r), AllArrived(l, r)), r.window);
  }

  // ---- One dropped packet ----

  /** All packets but the last are buffered; for the last there is no memory. */
  function LastDropped(l: Offer, r: Offer): seq<(Side, Action)> {
    FillWindow(r.window) + Deliveries(Right, if |Filled(l, r).out.flight| > 0 then |Filled(l, r).out.flight| - 1 else 0)
    + [(Right, Deliver(false))]
  }

  lemma LastDrop(y: System, window: nat)
    requires WindowSpent(y, window) && |y.out.flight| == 1 && OnlyStdout(y.out.flight)
    ensures
      var z := Step(y, Right, Deliver(false));
      Stalled(z) && !z.out.ledger.growFailed && z.out.ledger.dropped
  {
    var p := y.out.flight[0];
    assert p in y.out.flight && y.out.flight == [p];
    QueueOne(p);
  }

  /** At every offer, one packet dropped for want of memory is enough, with every adjust sent. */
  lemma AnyOfferStallsByDrop(l: Offer, r: Offer)
    requires Offered(l, r)
    ensures
      var y := Run(Start(l, r), LastDropped(l, r));
      Stalled(y) && !y.out.ledger.growFailed
  {
    var n := |Filled(l, r).out.flight|;
    FilledState(l, r);
    SpentState(l, r, 0);
    assert Run(Filled(l, r), Deliveries(Right, 0)) == Filled(l, r);
    SpentState(l, r, n - 1);
    RunAppend(Start(l, r), FillWindow(r.window), Deliveries(Right, n - 1));
    OneMoreStep(Start(l, r), FillWindow(r.window) + Deliveries(Right, n - 1), Right, Deliver(false));
    LastDrop(Run(Filled(l, r), Deliveries(Right, n - 1)), r.window);
  }

  // ---- Exactly when ----

  /** A run in which nothing failed in the direction but what is allowed to. */
  ghost predicate MayStall(l: Offer, r: Offer, steps: seq<(Side, Action)>, allowDrop: bool, allowFail: bool) {
    var y := Run(Start(l, r), steps);
    (allowDrop || !y.out.ledger.dropped) && (allowFail || !y.out.ledger.growFailed) && Stalled(y)
  }

  /**
   * At every offer some run stalls, and then for good, if and only if packets may be
   * dropped for want of memory or window adjusts may fail.
   */
  lemma StallsExactly(l: Offer, r: Offer, allowDrop: bool, allowFail: bool)
    requires Offered(l, r)
    ensures (exists steps :: MayStall(l, r, steps, allowDrop, allowFail)) <==> allowDrop || allowFail
    ensures forall steps, later :: MayStall(l, r, steps, allowDrop, allowFail) ==>
                                     Stalled(Run(Start(l, r), steps + later))
  {
    if allowFail {
      AnyOfferStalls(l, r);
      assert MayStall(l, r, FailedRead(l, r), allowDrop, allowFail);
    } else if allowDrop {
      AnyOfferStallsByDrop(l, r);
      assert MayStall(l, r, LastDropped(l, r), allowDrop, allowFail);
    } else {
      forall steps ensures !MayStall(l, r, steps, allowDrop, allowFail) {
        NeverStalls(l, r, steps);
      }
    }
    forall steps, later | MayStall(l, r, steps, allowDrop, allowFail) ensures Stalled(Run(Start(l, r), steps + later)) {
      Reached(l, r, steps);
      StalledForever(Run(Start(l, r), steps), later);
      RunAppend(Start(l, r), steps, later);
    }
  }

  // ---- End of file after bytes nobody got ----

  /** After the failed read the sender finishes with EOF, which arrives. */
  function ThenEof(l: Offer, r: Offer): seq<(Side, Action)> {
    FailedRead(l, r) + [(Left, StopWrite)] + [(Left, SendEof(true))] + [(Left, Flushed(RcOk, true))]
    + [(Right, Deliver(true))]
  }

  lemma EofArrives(y: System)
    requires Fits(y) && !y.left.chan.flags.localEof && y.out.flight == []
    ensures
      var y1 := Step(Step(y, Left, StopWrite), Left, SendEof(true));
      var z := Step(Step(y1, Left, Flushed(RcOk, true)), Right, Deliver(true));
      && z.right.chan == Receive(y.right.chan, Eof, true)
      && z.out.history == y.out.history && z.out.ledger.dropped == y.out.ledger.dropped
  {
    var y1 := Step(Step(y, Left, StopWrite), Left, SendEof(true));
    assert y1.out.flight == [Eof] && y1.left.pc == FlushEof(JustEof);
  }

  lemma FourMore(y: System, s: seq<(Side, Action)>, a: Action, b: Action, c: Action, d: Action)
    ensures
      var y2 := Step(Step(Run(y, s), Left, a), Left, b);
      Run(y, s + [(Left, a)] + [(Left, b)] + [(Left, c)] + [(Right, d)]) == Step(Step(y2, Left, c), Right, d)
  {
    var s1 := s + [(Left, a)];
    var s2 := s1 + [(Left, b)];
    OneMoreStep(y, s, Left, a);
    OneMoreStep(y, s1, Left, b);
    OneMoreStep(y, s2, Left, c);
    OneMoreStep(y, s2 + [(Left, c)], Right, d);
  }

  lemma EmptyAtEof(c: Chan, count: nat, sendOk: bool)
    requires c.stdout == [] && !c.flags.sessionError && !c.flags.released && count > 0
    ensures Read(Receive(c, Eof, true), Stdout, count, sendOk).result == Got([])
  {
  }

  /**
   * At every offer: a whole window of bytes left the buffer, no read returned any of them,
   * no packet was dropped, and the next read reports end of file.
   */
  lemma EndOfFileHidesBytes(l: Offer, r: Offer, count: nat, sendOk: bool)
    requires Offered(l, r) && count > 0
    ensures
      var y := Run(Start(l, r), ThenEof(l, r));
      && !y.out.ledger.dropped && |y.out.Took(Stdout)| == r.window > 0 && y.out.Returned(Stdout) == []
      && Read(y.right.chan, Stdout, count, sendOk).result == Got([])
  {
    AnyOfferStalls(l, r);
    Reached(l, r, FailedRead(l, r));
    var y := Run(Start(l, r), FailedRead(l, r));
    FourMore(Start(l, r), FailedRead(l, r), StopWrite, SendEof(true), Flushed(RcOk, true), Deliver(true));
    assert !y.left.chan.flags.localEof;
    EofArrives(y);
    EmptyAtEof(y.right.chan, count, sendOk);
  }
}
