/**
 * The receiver's books: what became of every byte delivered, and which of the bytes
 * read were returned to the caller. A read whose window adjust cannot be sent has
 * already dropped its bytes from the buffer when it reports the error.
 */
module ChannelBooks {
  import opened Octets
  import opened ChannelSpec
  import opened ChannelPair
  import opened ChannelInvariants

  // ---- One read ----

  /** Whether the read's window growth calls for an adjust, once it has taken its bytes. */
  predicate NeedsAdjust(c: Chan, s: Stream, count: nat) {
    Increment(AfterTake(c, s, Min(|c.Buffer(s)|, count))) >= HALF_WINDOW
  }

  /** A read that takes bytes returns exactly those, if and only if it needs no adjust or can send it. */
  lemma ReadReturnsTaken(c: Chan, s: Stream, count: nat, sendOk: bool)
    ensures
      var x := Read(c, s, count, sendOk);
      && (x.taken == [] || x.taken == c.Buffer(s)[..Min(|c.Buffer(s)|, count)])
      && (x.taken != [] ==> (x.result == Got(x.taken) <==> sendOk || !NeedsAdjust(c, s, count)))
      && (x.taken != [] && x.result != Got(x.taken) ==> x.result == Error)
      && (x.taken == [] ==> x.Returned() == [])
  {
  }

  // ---- Every run ----

  /** Bytes delivered were read, are buffered, or went with a packet dropped for want of memory. */
  ghost predicate Accounted(c: Chan, f: Flow) {
    && f.Consumed() + |c.stdout| + |c.stderr| + f.ledger.lost + f.ledger.discarded == Load(f.received)
    && (f.ledger.dropped <==> f.ledger.lost > 0)
  }

  /** Reads returned all they took, exactly as long as no window adjust of theirs failed. */
  ghost predicate Returning(f: Flow) {
    var returned := |f.history.returnedOut| + |f.history.returnedErr|;
    && (if f.ledger.growFailed then returned < f.Consumed() else returned == f.Consumed())
    && (!f.ledger.growFailed ==> forall s :: f.Returned(s) == f.Took(s))
  }

  ghost predicate Book(c: Chan, f: Flow) {
    Accounted(c, f) && Returning(f)
  }

  ghost predicate Books(y: System) {
    Book(y.right.chan, y.out) && Book(y.left.chan, y.back)
  }

  /** Nothing the books are about changed in a direction. */
  ghost predicate SameBook(c: Chan, f: Flow, c': Chan, f': Flow) {
    && c'.stdout == c.stdout && c'.stderr == c.stderr
    && f'.received == f.received
    && f'.history.tookOut == f.history.tookOut && f'.history.tookErr == f.history.tookErr
    && f'.history.returnedOut == f.history.returnedOut && f'.history.returnedErr == f.history.returnedErr
    && f'.ledger.lost == f.ledger.lost && f'.ledger.discarded == f.ledger.discarded
    && f'.ledger.dropped == f.ledger.dropped && f'.ledger.growFailed == f.ledger.growFailed
  }

  lemma SameBookKeeps(c: Chan, f: Flow, c': Chan, f': Flow)
    requires Book(c, f) && SameBook(c, f, c', f')
    ensures Book(c', f')
  {
    assert forall s :: f'.Took(s) == f.Took(s) && f'.Returned(s) == f.Returned(s);
  }

  ghost predicate Quiet(y: System, y': System) {
    SameBook(y.right.chan, y.out, y'.right.chan, y'.out) && SameBook(y.left.chan, y.back, y'.left.chan, y'.back)
  }

  lemma QuietKeeps(y: System, y': System)
    requires Books(y) && Quiet(y, y')
    ensures Books(y')
  {
    SameBookKeeps(y.right.chan, y.out, y'.right.chan, y'.out);
    SameBookKeeps(y.left.chan, y.back, y'.left.chan, y'.back);
  }

  lemma AfterGoalIsQuiet(y: System, goal: Goal)
    ensures Quiet(y, AfterGoal(y, goal)) && Quiet(y, GiveUp(y, goal))
  {
  }

  lemma SendCloseIsQuiet(y: System, goal: Goal, sendOk: bool)
    ensures Quiet(y, SendClose(y, goal, sendOk))
  {
    AfterGoalIsQuiet(y, goal);
  }

  lemma CloseIsQuiet(y: System, goal: Goal, sendOk: bool)
    ensures Quiet(y, StartClose(y, goal, sendOk))
  {
    AfterGoalIsQuiet(y, goal);
    SendCloseIsQuiet(y, goal, sendOk);
  }

  lemma {:induction false} FreeIsQuiet(y: System, sendOk: bool)
    ensures Quiet(y, DoFree(y, sendOk)) && Quiet(y, DoClose(y, sendOk))
  {
    AfterGoalIsQuiet(y, ThenFree);
    CloseIsQuiet(y, ThenFree, sendOk);
    CloseIsQuiet(y, JustClose, sendOk);
  }

  lemma QuietTwice(y: System, y1: System, y2: System)
    requires Quiet(y, y1) && Quiet(y1, y2)
    ensures Quiet(y, y2)
  {
  }

  lemma EofFlushIsQuiet(y: System, flush: Rc)
    ensures Quiet(y, y.(left := EofFlushEnds(y.left, flush)))
  {
  }

  lemma {:induction false} FlushedIsQuiet(y: System, flush: Rc, sendOk: bool)
    ensures Quiet(y, DoFlushed(y, flush, sendOk))
  {
    match y.left.pc
    case FlushEof(goal) =>
      var y1 := y.(left := EofFlushEnds(y.left, flush));
      EofFlushIsQuiet(y, flush);
      AfterGoalIsQuiet(y1, goal);
      SendCloseIsQuiet(y1, goal, sendOk);
      QuietTwice(y, y1, DoFlushed(y, flush, sendOk));
    case FlushClose(goal) => AfterGoalIsQuiet(y, goal);
    case _ =>
  }

  lemma ReadBooks(y: System, s: Stream, count: nat, sendOk: bool)
    requires Inv(y) && Books(y)
    ensures Books(DoRead(y, s, count, sendOk))
  {
    if y.left.pc.Idle? {
      var y' := DoRead(y, s, count, sendOk);
      var x := Read(y.left.chan, s, count, sendOk);
      ReadEffect(y.left.chan, s, count, sendOk);
      ReadAccounts(y.left.chan, y.back, s, x);
      SameBookKeeps(y.right.chan, y.out, y'.right.chan, y'.out);
    }
  }

  lemma ReadAccounts(c: Chan, f: Flow, s: Stream, x: Reading)
    requires Book(c, f) && TookFrom(c, s, x)
    ensures Book(x.chan, AfterRead(f, s, x))
  {
    var f' := AfterRead(f, s, x);
    assert f'.Consumed() == f.Consumed() + |x.taken|;
    forall t ensures f'.Took(t) == f.Took(t) + (if t == s then x.taken else []) {
      assert f.Took(t) + [] == f.Took(t);
    }
    forall t ensures f'.Returned(t) == f.Returned(t) + (if t == s then x.Returned() else []) {
      assert f.Returned(t) + [] == f.Returned(t);
    }
  }

  lemma DeliverBooks(y: System, allocOk: bool)
    requires Inv(y) && Books(y)
    ensures Books(DoDeliver(y, allocOk))
  {
    if y.back.flight != [] {
      var p, y' := y.back.flight[0], DoDeliver(y, allocOk);
      NothingAfterClose(y.right, y.left, y.back);
      assert p in y.back.Sent();
      SameBookKeeps(y.right.chan, y.out, y'.right.chan, y'.out);
      if p.Data? {
        assert 1 <= |p.payload| <= y.left.chan.localWindow;
        DataBook(y.left.chan, y.back, p, allocOk, y'.back);
      } else {
        OtherBook(y.left.chan, y.back, p, allocOk, y'.back);
      }
    }
  }

  /** What a delivery does to the receiver's account. */
  ghost predicate Delivered(f: Flow, p: Packet, f': Flow) {
    f'.received == f.received + [p] && f'.history == f.history && f'.ledger.growFailed == f.ledger.growFailed
  }

  ghost predicate NothingLost(f: Flow, f': Flow) {
    && f'.ledger.lost == f.ledger.lost
    && f'.ledger.discarded == f.ledger.discarded
    && f'.ledger.dropped == f.ledger.dropped
  }

  lemma DataBook(c: Chan, f: Flow, p: Packet, allocOk: bool, f': Flow)
    requires Book(c, f) && p.Data? && 1 <= |p.payload| <= c.localWindow && !c.flags.released && Delivered(f, p, f')
    requires if allocOk then
               NothingLost(f, f')
             else
               && f'.ledger.lost == f.ledger.lost + |p.payload| && f'.ledger.dropped
               && f'.ledger.discarded == f.ledger.discarded + |c.Buffer(p.stream)|
    ensures Book(Receive(c, p, allocOk), f')
  {
    QueueAppend(f.received, [p]);
    QueueOne(p);
    assert forall s :: f'.Took(s) == f.Took(s) && f'.Returned(s) == f.Returned(s);
  }

  lemma OtherBook(c: Chan, f: Flow, p: Packet, allocOk: bool, f': Flow)
    requires Book(c, f) && !p.Data? && Delivered(f, p, f')
    requires NothingLost(f, f')
    ensures Book(Receive(c, p, allocOk), f')
  {
    QueueAppend(f.received, [p]);
    QueueOne(p);
    assert forall s :: f'.Took(s) == f.Took(s) && f'.Returned(s) == f.Returned(s);
  }

  lemma OtherStepIsQuiet(y: System, a: Action)
    requires a.BeginWrite? || a.WritePacket? || a.StopWrite? || a.SendEof? || a.TransportFails?
    ensures Quiet(y, StepLeft(y, a))
  {
  }

  lemma {:induction false} StepBooks(y: System, a: Action)
    requires Inv(y) && Books(y)
    ensures Books(StepLeft(y, a))
  {
    match a
    case ReadSome(s, count, sendOk) => ReadBooks(y, s, count, sendOk);
    case Deliver(allocOk) => DeliverBooks(y, allocOk);
    case CloseCall(sendOk) =>
      FreeIsQuiet(y, sendOk);
      QuietKeeps(y, DoClose(y, sendOk));
    case FreeCall(sendOk) =>
      FreeIsQuiet(y, sendOk);
      QuietKeeps(y, DoFree(y, sendOk));
    case Flushed(flush, sendOk) =>
      FlushedIsQuiet(y, flush, sendOk);
      QuietKeeps(y, DoFlushed(y, flush, sendOk));
    case _ =>
      OtherStepIsQuiet(y, a);
      QuietKeeps(y, StepLeft(y, a));
  }

  lemma {:induction false} BooksKept(y: System, steps: seq<(Side, Action)>)
    requires Inv(y) && Books(y)
    ensures Books(Run(y, steps))
    decreases |steps|
  {
    if steps != [] {
      if steps[0].0.Left? {
        StepLeftKeeps(y, steps[0].1);
        StepBooks(y, steps[0].1);
      } else {
        StepLeftKeeps(y.Swap(), steps[0].1);
        StepBooks(y.Swap(), steps[0].1);
      }
      BooksKept(Step(y, steps[0].0, steps[0].1), steps[1..]);
    }
  }

  lemma BooksAtStart(l: Offer, r: Offer)
    ensures Books(Start(l, r))
  {
  }

  lemma {:induction false} LoadIsPayload(q: seq<Packet>)
    ensures Load(q) == |PayloadOf(q, Stdout)| + |PayloadOf(q, Stderr)|
  {
    if q != [] {
      LoadIsPayload(q[1..]);
    }
  }
}
