/** What holds in every state of every run of two ends of a channel. */
module ChannelTheorems {
  import opened Octets
  import opened ChannelSpec
  import opened ChannelPair
  import opened ChannelInvariants
  import opened ChannelBooks

  ghost predicate Offered(l: Offer, r: Offer) {
    ValidOffer(l) && ValidOffer(r)
  }

  lemma Reached(l: Offer, r: Offer, steps: seq<(Side, Action)>)
    requires Offered(l, r)
    ensures Inv(Run(Start(l, r), steps)) && Books(Run(Start(l, r), steps))
  {
    StartHolds(l, r);
    BooksAtStart(l, r);
    EveryRun(Start(l, r), steps);
    BooksKept(Start(l, r), steps);
  }

  lemma {:induction false} RunAppend(y: System, a: seq<(Side, Action)>, b: seq<(Side, Action)>)
    ensures Run(y, a + b) == Run(Run(y, a), b)
    decreases |a|
  {
    if a == [] {
      assert a + b == b;
    } else {
      assert (a + b)[1..] == a[1..] + b;
      RunAppend(Step(y, a[0].0, a[0].1), a[1..], b);
    }
  }

  function Flip(steps: seq<(Side, Action)>): seq<(Side, Action)> {
    seq(|steps|, i requires 0 <= i < |steps| => (if steps[i].0.Left? then Right else Left, steps[i].1))
  }

  /** The two ends run the same code: exchanging them in a run exchanges them in its final state. */
  lemma {:induction false} Mirrored(y: System, steps: seq<(Side, Action)>)
    ensures Run(y.Swap(), Flip(steps)) == Run(y, steps).Swap()
    decreases |steps|
  {
    if steps != [] {
      assert Flip(steps)[1..] == Flip(steps[1..]);
      Mirrored(Step(y, steps[0].0, steps[0].1), steps[1..]);
      assert Step(y.Swap(), Flip(steps)[0].0, Flip(steps)[0].1) == Step(y, steps[0].0, steps[0].1).Swap();
    }
  }

  // ---- Flow control ----

  /**
   * Credit is conserved in both directions, no 32-bit window or window sum can wrap,
   * and the "Window exceeded" branch is dead: whatever is in flight fits the window.
   */
  lemma WindowsAgree(l: Offer, r: Offer, steps: seq<(Side, Action)>)
    requires Offered(l, r)
    ensures
      var y := Run(Start(l, r), steps);
      && y.left.chan.remoteWindow + Load(y.out.flight) + Credit(y.back.flight) + y.out.ledger.lost
         == y.right.chan.localWindow
      && y.right.chan.remoteWindow + Load(y.back.flight) + Credit(y.out.flight) + y.back.ledger.lost
         == y.left.chan.localWindow
      && y.left.chan.Reserved() <= WINDOW_DEFAULT < TWO_32
      && y.right.chan.Reserved() <= WINDOW_DEFAULT
      && y.left.chan.remoteWindow + Credit(y.back.flight) <= WINDOW_DEFAULT
      && y.right.chan.remoteWindow + Credit(y.out.flight) <= WINDOW_DEFAULT
      && Load(y.out.flight) <= y.right.chan.localWindow
      && Load(y.back.flight) <= y.left.chan.localWindow
      && !y.left.chan.flags.fatal && !y.right.chan.flags.fatal
  {
    Reached(l, r, steps);
  }

  /** The sender has no window, nothing that could give it any is under way, and the reader has nothing to read. */
  ghost predicate Stalled(y: System) {
    && y.left.chan.remoteWindow == 0
    && Load(y.out.flight) == 0
    && Credit(y.back.flight) == 0
    && !y.right.chan.HasUnread()
  }

  /** Unless memory ran out or a window adjust could not be sent, flow control never stalls. */
  lemma NeverStalls(l: Offer, r: Offer, steps: seq<(Side, Action)>)
    requires Offered(l, r)
    ensures
      var y := Run(Start(l, r), steps);
      !y.out.ledger.dropped && !y.out.ledger.growFailed ==> !Stalled(y)
  {
    Reached(l, r, steps);
    LedgerKeepsOffer(Start(l, r), steps);
  }

  lemma StepKeepsOffer(y: System, a: Action)
    ensures StepLeft(y, a).out.ledger.initialWindow == y.out.ledger.initialWindow
    ensures StepLeft(y, a).back.ledger.initialWindow == y.back.ledger.initialWindow
  {
  }

  lemma {:induction false} LedgerKeepsOffer(y: System, steps: seq<(Side, Action)>)
    ensures Run(y, steps).out.ledger.initialWindow == y.out.ledger.initialWindow
    ensures Run(y, steps).back.ledger.initialWindow == y.back.ledger.initialWindow
    decreases |steps|
  {
    if steps != [] {
      if steps[0].0.Left? {
        StepKeepsOffer(y, steps[0].1);
      } else {
        StepKeepsOffer(y.Swap(), steps[0].1);
      }
      LedgerKeepsOffer(Step(y, steps[0].0, steps[0].1), steps[1..]);
    }
  }

  /**
   * Window adjusts are rare: each is worth half a window, paid for by bytes consumed or
   * discarded with a buffer.
   */
  lemma AdjustsAreRare(l: Offer, r: Offer, steps: seq<(Side, Action)>)
    requires Offered(l, r)
    ensures
      var d := Run(Start(l, r), steps).out;
      d.ledger.adjusts * HALF_WINDOW <= d.Consumed() + d.ledger.discarded + (WINDOW_DEFAULT - r.window)
  {
    Reached(l, r, steps);
    LedgerKeepsOffer(Start(l, r), steps);
  }

  // ---- Streams ----

  /** What reads returned on both streams is what they took off the buffers, if and only if no adjust failed. */
  lemma ReturnedIsTaken(l: Offer, r: Offer, steps: seq<(Side, Action)>)
    requires Offered(l, r)
    ensures
      var d := Run(Start(l, r), steps).out;
      (forall s :: d.Returned(s) == d.Took(s)) <==> !d.ledger.growFailed
  {
    Reached(l, r, steps);
    var d := Run(Start(l, r), steps).out;
    if forall s :: d.Returned(s) == d.Took(s) {
      assert d.Returned(Stdout) == d.Took(Stdout) && d.Returned(Stderr) == d.Took(Stderr);
    }
  }

  /** Every byte written has been returned by a read, is buffered, or is in flight, in order, on both streams. */
  ghost predicate Intact(y: System) {
    forall s :: y.out.Returned(s) + y.right.chan.Buffer(s) + PayloadOf(y.out.flight, s) == y.out.Wrote(s)
  }

  /**
   * Nothing written gets lost on the way to the callers of read, if and only if no packet
   * was dropped for want of memory and no window adjust of a read failed. What left the
   * buffers is complete as long as no packet was dropped.
   */
  lemma StreamsIntact(l: Offer, r: Offer, steps: seq<(Side, Action)>)
    requires Offered(l, r)
    ensures
      var y := Run(Start(l, r), steps);
      && (Intact(y) <==> !y.out.ledger.dropped && !y.out.ledger.growFailed)
      && (!y.out.ledger.dropped ==>
            forall s :: y.out.Took(s) + y.right.chan.Buffer(s) + PayloadOf(y.out.flight, s) == y.out.Wrote(s))
  {
    Reached(l, r, steps);
    var y := Run(Start(l, r), steps);
    QueueAppend(y.out.received, y.out.flight);
    if Intact(y) {
      IntactMeansBalanced(y);
    }
  }

  lemma IntactMeansBalanced(y: System)
    requires Inv(y) && Books(y) && Intact(y)
    ensures !y.out.ledger.dropped && !y.out.ledger.growFailed
  {
    QueueAppend(y.out.received, y.out.flight);
    LoadIsPayload(y.out.flight);
    LoadIsPayload(y.out.Sent());
    var c, d := y.right.chan, y.out;
    assert |d.Returned(Stdout)| + |c.Buffer(Stdout)| + |PayloadOf(d.flight, Stdout)| == |d.Wrote(Stdout)|;
    assert |d.Returned(Stderr)| + |c.Buffer(Stderr)| + |PayloadOf(d.flight, Stderr)| == |d.Wrote(Stderr)|;
  }

  lemma {:induction false} NoDataNoPayload(q: seq<Packet>, s: Stream)
    requires forall p :: p in q ==> !p.Data?
    ensures PayloadOf(q, s) == [] && Load(q) == 0
  {
    if q != [] {
      NoDataNoPayload(q[1..], s);
    }
  }

  ghost predicate Extends(f: Flow, f': Flow) {
    f.received <= f'.received && f.Sent() <= f'.Sent()
  }

  lemma StepExtends(y: System, a: Action)
    ensures Extends(y.out, StepLeft(y, a).out) && Extends(y.back, StepLeft(y, a).back)
  {
    var y' := StepLeft(y, a);
    if a.Deliver? && y.back.flight != [] {
      assert y'.back.Sent() == y.back.Sent();
    }
  }

  lemma {:induction false} QueuesGrow(y: System, steps: seq<(Side, Action)>)
    ensures Extends(y.out, Run(y, steps).out) && Extends(y.back, Run(y, steps).back)
    decreases |steps|
  {
    if steps != [] {
      if steps[0].0.Left? {
        StepExtends(y, steps[0].1);
      } else {
        StepExtends(y.Swap(), steps[0].1);
      }
      QueuesGrow(Step(y, steps[0].0, steps[0].1), steps[1..]);
    }
  }

  /** The sender has said its last: a CLOSE of its was delivered, or an EOF and every EOF of its is recorded. */
  ghost predicate LastSaid(y: System, z: System) {
    y.right.chan.flags.closedRemote || (y.right.chan.flags.remoteEof && !z.left.eofUnrecorded)
  }

  lemma NoDataLater(strict: bool, before: seq<Packet>, more: seq<Packet>, i: nat)
    requires InOrder(strict, before + more) && i < |before| && (before[i].Close? || (strict && before[i].Eof?))
    ensures forall p :: p in more ==> !p.Data?
  {
    var q := before + more;
    forall j | 0 <= j < |more| ensures !more[j].Data? {
      assert q[i] == before[i] && q[|before| + j] == more[j];
      assert MayFollow(strict, q[i], q[|before| + j]);
    }
  }

  /** All the data the sender sends up to `z` was delivered by `y`. */
  ghost predicate NothingToCome(y: System, z: System) {
    Load(z.out.Sent()) == Load(y.out.received)
  }

  /** Once the sender has said its last, no data follows what was delivered by then. */
  lemma {:induction false} WritesAreOver(y: System, z: System)
    requires Inv(y) && Inv(z) && Extends(y.out, z.out) && LastSaid(y, z)
    ensures NothingToCome(y, z)
  {
    var before, after := y.out.received, z.out.Sent();
    assert before <= after;
    var more := after[|before|..];
    assert after == before + more;
    assert Close in before || (!z.left.eofUnrecorded && Eof in before);
    var i :| 0 <= i < |before| && (before[i].Close? || (!z.left.eofUnrecorded && before[i].Eof?));
    NoDataLater(!z.left.eofUnrecorded, before, more, i);
    NoDataNoPayload(more, Stdout);
    QueueAppend(before, more);
  }

  lemma NoLoadNoPayload(q: seq<Packet>, s: Stream)
    requires Load(q) == 0
    ensures PayloadOf(q, s) == []
  {
    LoadIsPayload(q);
  }

  /** A queue, what is in flight behind it, and what is sent in the end. */
  lemma QueueAndMore(before: seq<Packet>, flight: seq<Packet>, after: seq<Packet>)
    requires before + flight <= after
    ensures Load(before) <= Load(after)
    ensures Load(before) == Load(after) ==>
              forall s :: PayloadOf(after, s) == PayloadOf(before, s) && PayloadOf(flight, s) == []
  {
    var later := after[|before + flight|..];
    assert after == (before + flight) + later;
    QueueAppend(before + flight, later);
    QueueAppend(before, flight);
    if Load(before) == Load(after) {
      forall s ensures PayloadOf(after, s) == PayloadOf(before, s) && PayloadOf(flight, s) == [] {
        NoLoadNoPayload(flight, s);
        NoLoadNoPayload(later, s);
        assert PayloadOf(before, s) + [] == PayloadOf(before, s);
      }
    }
  }

  /** Everything ever written was returned or is still buffered. */
  ghost predicate AllArrived(y: System, z: System) {
    forall t :: y.out.Returned(t) + y.right.chan.Buffer(t) == z.out.Wrote(t)
  }

  lemma ArrivedMeansComplete(y: System, z: System)
    requires Inv(y) && Books(y) && Inv(z) && Extends(y.out, z.out) && AllArrived(y, z)
    ensures !y.out.ledger.dropped && !y.out.ledger.growFailed && NothingToCome(y, z)
  {
    var c, d := y.right.chan, y.out;
    QueueAndMore(d.received, d.flight, z.out.Sent());
    LoadIsPayload(z.out.Sent());
    assert |d.Returned(Stdout)| + |c.Buffer(Stdout)| == |z.out.Wrote(Stdout)|;
    assert |d.Returned(Stderr)| + |c.Buffer(Stderr)| == |z.out.Wrote(Stderr)|;
  }

  lemma {:induction false} CompleteMeansArrived(y: System, z: System)
    requires Inv(y) && Books(y) && Inv(z) && Extends(y.out, z.out)
    requires !y.out.ledger.dropped && NothingToCome(y, z)
    ensures forall t :: y.out.Took(t) + y.right.chan.Buffer(t) == z.out.Wrote(t)
    ensures !y.out.ledger.growFailed ==> AllArrived(y, z)
  {
    QueueAndMore(y.out.received, y.out.flight, z.out.Sent());
    forall t ensures y.out.Took(t) + y.right.chan.Buffer(t) == z.out.Wrote(t) {
      assert y.out.Took(t) + y.right.chan.Buffer(t) == PayloadOf(y.out.received, t);
    }
  }

  /**
   * A read that reports end of file. Every byte ever written on either stream, now or
   * later, was returned to a caller or is still buffered if and only if no packet was
   * dropped, no adjust failed, and the sender's data was all delivered; that last is so once
   * the sender has said its last. On the stream itself nothing is buffered.
   */
  lemma EndOfFileIsComplete(l: Offer, r: Offer, steps: seq<(Side, Action)>, later: seq<(Side, Action)>, s: Stream,
                            count: nat)
    requires Offered(l, r) && count > 0
    requires Read(Run(Start(l, r), steps).right.chan, s, count, true).result == Got([])
    ensures
      var y := Run(Start(l, r), steps);
      var z := Run(y, later);
      && y.right.chan.Buffer(s) == []
      && (AllArrived(y, z) <==> !y.out.ledger.dropped && !y.out.ledger.growFailed && NothingToCome(y, z))
      && (!y.out.ledger.dropped && NothingToCome(y, z) ==> y.out.Took(s) == z.out.Wrote(s))
      && (LastSaid(y, z) ==> NothingToCome(y, z))
  {
    Reached(l, r, steps);
    var y := Run(Start(l, r), steps);
    var z := Run(y, later);
    EveryRun(y, later);
    QueuesGrow(y, later);
    if LastSaid(y, z) {
      WritesAreOver(y, z);
    }
    if AllArrived(y, z) {
      ArrivedMeansComplete(y, z);
    }
    if !y.out.ledger.dropped && NothingToCome(y, z) {
      CompleteMeansArrived(y, z);
      assert y.out.Took(s) + [] == y.out.Took(s);
    }
  }
}
