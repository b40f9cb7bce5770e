/**
 * Flow control makes progress: from every reachable state, however it was reached, an
 * end that can still read gets everything the other end wrote, and by reading it
 * gives that end a window to write more.
 */
module ChannelProgress {
  import opened Octets
  import opened ChannelSpec
  import opened ChannelPair
  import opened ChannelInvariants
  import opened ChannelBooks
  import opened ChannelTheorems

  /** The left end is free to read: it has not closed, and neither memory nor an adjust of its has failed. */
  ghost predicate CanRead(y: System) {
    && y.left.pc.Idle? && !y.left.chan.flags.closedLocal && !y.left.chan.flags.sessionError
    && !y.back.ledger.dropped && !y.back.ledger.growFailed
  }

  function Deliveries(side: Side, n: nat): seq<(Side, Action)> {
    seq(n, i => (side, Deliver(true)))
  }

  /** What a delivery to the left end leaves alone. */
  ghost predicate OnlyReceived(y: System, z: System) {
    && z.right == y.right && z.out == y.out && z.back.history == y.back.history && z.back.Sent() == y.back.Sent()
    && z.left.pc == y.left.pc
    && z.left.chan.flags.closedLocal == y.left.chan.flags.closedLocal
    && z.left.chan.flags.sessionError == y.left.chan.flags.sessionError
    && z.back.ledger.(releases := y.back.ledger.releases) == y.back.ledger
  }

  lemma {:induction false} OneDelivery(y: System)
    requires y.back.flight != []
    ensures
      var z := StepLeft(y, Deliver(true));
      OnlyReceived(y, z) && z.back.flight == y.back.flight[1..]
  {
    ReceiveKeepsFlags(y.left.chan, y.back.flight[0], true);
    assert StepLeft(y, Deliver(true)).back.Sent() == y.back.Sent();
  }

  lemma {:induction false} AllDelivered(y: System)
    ensures
      var z := Run(y, Deliveries(Left, |y.back.flight|));
      OnlyReceived(y, z) && z.back.flight == []
    decreases |y.back.flight|
  {
    var n := |y.back.flight|;
    if n > 0 {
      var y1 := StepLeft(y, Deliver(true));
      OneDelivery(y);
      assert Deliveries(Left, n)[1..] == Deliveries(Left, n - 1);
      AllDelivered(y1);
    }
  }

  /** The same for the right end, by symmetry. */
  lemma AllDeliveredRight(y: System)
    ensures
      var z := Run(y, Deliveries(Right, |y.out.flight|));
      OnlyReceived(y.Swap(), z.Swap()) && z.out.flight == []
  {
    var n := |y.out.flight|;
    AllDelivered(y.Swap());
    Mirrored(y.Swap(), Deliveries(Left, n));
    assert Flip(Deliveries(Left, n)) == Deliveries(Right, n);
    assert y.Swap().Swap() == y;
  }

  /** Reading all that is buffered on one stream. */
  lemma WholeBuffer(c: Chan, s: Stream)
    requires c.Reserved() <= WINDOW_DEFAULT && !c.flags.sessionError && (c.HasUnread() ==> !c.state.Closed?)
    ensures
      var x := Read(c, s, |c.Buffer(s)|, true);
      && x.chan.Buffer(s) == [] && (forall t :: t != s ==> x.chan.Buffer(t) == c.Buffer(t))
      && x.chan.flags == c.flags && !x.AdjustFailed()
  {
    ReadEffect(c, s, |c.Buffer(s)|, true);
    ReadReturnsTaken(c, s, |c.Buffer(s)|, true);
  }

  lemma BufferRead(y: System, s: Stream)
    requires Inv(y) && CanRead(y)
    ensures
      var z := DoRead(y, s, |y.left.chan.Buffer(s)|, true);
      && CanRead(z) && z.left.chan.Buffer(s) == []
      && (forall t :: t != s ==> z.left.chan.Buffer(t) == y.left.chan.Buffer(t))
      && z.back.flight == y.back.flight && (forall t :: z.back.Wrote(t) == y.back.Wrote(t))
  {
    WholeBuffer(y.left.chan, s);
  }

  /** What is left once everything was delivered and read. */
  ghost predicate CaughtUp(y: System) {
    && y.back.flight == [] && y.out.flight == [] && !y.left.chan.HasUnread()
    && (forall s :: y.back.Returned(s) == y.back.Wrote(s))
    && y.right.chan.remoteWindow > 0
  }

  lemma {:induction false} DrainedIsCaughtUp(y: System)
    requires Inv(y) && Books(y) && CanRead(y)
    requires y.back.flight == [] && y.out.flight == [] && y.left.chan.stdout == [] && y.left.chan.stderr == []
    ensures CaughtUp(y)
  {
    assert y.back.Sent() == y.back.received;
    forall s ensures y.back.Returned(s) == y.back.Wrote(s) {
      assert y.back.Returned(s) == y.back.Took(s);
      assert y.back.Took(s) + y.left.chan.Buffer(s) == PayloadOf(y.back.received, s);
      assert y.left.chan.Buffer(s) == [];
    }
  }

  lemma RunTwo(y: System, a: Action, b: Action)
    ensures Run(y, [(Left, a), (Left, b)]) == StepLeft(StepLeft(y, a), b)
  {
    var steps := [(Left, a), (Left, b)];
    var y1 := StepLeft(y, a);
    assert [(Left, b)][1..] == [];
    assert Run(y1, [(Left, b)]) == Run(StepLeft(y1, b), []);
    assert steps[1..] == [(Left, b)];
  }

  /** Reading both streams. */
  lemma {:induction false} BothRead(y: System) returns (taking: seq<(Side, Action)>)
    requires Inv(y) && Books(y) && CanRead(y) && y.back.flight == []
    ensures
      var z := Run(y, taking);
      && Inv(z) && Books(z) && CanRead(z) && z.left.chan.stdout == [] && z.left.chan.stderr == [] && z.back.flight == []
      && (forall t :: z.back.Wrote(t) == y.back.Wrote(t))
  {
    var out, err := ReadSome(Stdout, |y.left.chan.stdout|, true), ReadSome(Stderr, |y.left.chan.stderr|, true);
    taking := [(Left, out), (Left, err)];
    EveryRun(y, taking);
    BooksKept(y, taking);
    RunTwo(y, out, err);
    BothBuffersRead(y);
  }

  lemma BothBuffersRead(y: System)
    requires Inv(y) && CanRead(y)
    ensures
      var y1 := DoRead(y, Stdout, |y.left.chan.stdout|, true);
      var z := DoRead(y1, Stderr, |y.left.chan.stderr|, true);
      && CanRead(z) && z.left.chan.stdout == [] && z.left.chan.stderr == [] && z.back.flight == y.back.flight
      && (forall t :: z.back.Wrote(t) == y.back.Wrote(t))
  {
    var y1 := DoRead(y, Stdout, |y.left.chan.stdout|, true);
    BufferRead(y, Stdout);
    assert y1.left.chan.Buffer(Stderr) == y.left.chan.Buffer(Stderr);
    ReadKeeps(y, Stdout, |y.left.chan.stdout|, true);
    BufferRead(y1, Stderr);
    assert DoRead(y1, Stderr, |y.left.chan.stderr|, true).left.chan.Buffer(Stdout) == y1.left.chan.Buffer(Stdout);
  }

  /** Deliver, read both streams, deliver the adjusts: the steps that let both ends go on. */
  lemma CatchUp(y: System) returns (more: seq<(Side, Action)>)
    requires Inv(y) && Books(y) && CanRead(y)
    ensures CaughtUp(Run(y, more))
    ensures forall s :: Run(y, more).back.Wrote(s) == y.back.Wrote(s)
  {
    var first := Deliveries(Left, |y.back.flight|);
    var y1 := Run(y, first);
    AllDelivered(y);
    EveryRun(y, first);
    BooksKept(y, first);
    var taking := BothRead(y1);
    var y2 := Run(y1, taking);
    var last := Deliveries(Right, |y2.out.flight|);
    AllDeliveredRight(y2);
    EveryRun(y2, last);
    BooksKept(y2, last);
    DrainedIsCaughtUp(Run(y2, last));
    RunAppend(y, first, taking);
    RunAppend(y, first + taking, last);
    more := first + taking + last;
  }

  // ---- Writing ----

  /** A write of `data` begins and sends its first packet, if it may. */
  function FirstPacket(y: System, s: Stream, data: seq<byte>): System {
    StepLeft(StepLeft(y, BeginWrite(s, data)), WritePacket(true))
  }

  /** What an idle end needs to write: EOF unsent, no CLOSE received, an open channel, a live session, a window. */
  predicate MayWrite(p: Peer) {
    && !p.chan.flags.localEof && !p.chan.flags.closedRemote && p.chan.state == Open
    && !p.chan.flags.sessionError && p.chan.remoteWindow > 0
  }

  /**
   * In every reachable state of an idle end, a write sends a packet if and only if the
   * end may write, whatever EOF the other end sent; the packet carries the front of the
   * data, as much as the window and the packet size allow.
   */
  lemma WriteBeginsExactly(l: Offer, r: Offer, steps: seq<(Side, Action)>, s: Stream, data: seq<byte>)
    requires Offered(l, r) && Run(Start(l, r), steps).left.pc.Idle? && data != []
    ensures
      var y := Run(Start(l, r), steps);
      var z := FirstPacket(y, s, data);
      var n := Min(|data|, Min(y.left.chan.remoteWindow, y.left.chan.remoteMaxPacket));
      && (z.out.Wrote(s) != y.out.Wrote(s) <==> MayWrite(y.left))
      && (MayWrite(y.left) ==> n > 0 && z.out.Wrote(s) == y.out.Wrote(s) + data[..n])
  {
    var y := Run(Start(l, r), steps);
    Reached(l, r, steps);
    FirstPacketSent(y, s, data);
  }

  lemma FirstPacketSent(y: System, s: Stream, data: seq<byte>)
    requires Consistent(y.left) && y.left.chan.remoteMaxPacket > 0 && y.left.pc.Idle? && data != []
    ensures
      var z := FirstPacket(y, s, data);
      var n := Min(|data|, Min(y.left.chan.remoteWindow, y.left.chan.remoteMaxPacket));
      if MayWrite(y.left) then
        n > 0 && z.out.Wrote(s) == y.out.Wrote(s) + data[..n]
      else
        z.out.Wrote(s) == y.out.Wrote(s)
  {
    if MayWrite(y.left) {
      var y1 := StepLeft(y, BeginWrite(s, data));
      assert y1.left.pc == Writing(s, data) && y1.left.chan == y.left.chan && y1.out == y.out;
    }
  }

  /**
   * No run can get stuck: whatever happened so far, some continuation delivers all that
   * was written and reopens the window.
   */
  lemma ProgressIsPossible(l: Offer, r: Offer, steps: seq<(Side, Action)>)
    requires Offered(l, r) && CanRead(Run(Start(l, r), steps))
    ensures exists more :: CaughtUp(Run(Start(l, r), steps + more))
  {
    Reached(l, r, steps);
    var more := CatchUp(Run(Start(l, r), steps));
    RunAppend(Start(l, r), steps, more);
  }
}
