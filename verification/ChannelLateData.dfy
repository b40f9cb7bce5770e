/**
 * Data that comes late: behind an EOF, after a read that reported end of file, and after a
 * CLOSE was received. Each is possible in the code; here is exactly when.
 */
module ChannelLateData {
  import opened Octets
  import opened ChannelSpec
  import opened ChannelPair
  import opened ChannelInvariants
  import opened ChannelTheorems

  // ---- Behind an EOF ----

  ghost predicate DataBehindEof(q: seq<Packet>) {
    exists i, j :: 0 <= i < j < |q| && q[i].Eof? && q[j].Data?
  }

  ghost predicate SecondEof(q: seq<Packet>) {
    exists i, j :: 0 <= i < j < |q| && q[i].Eof? && q[j].Eof?
  }

  /** A run of the left end in which no flush of an EOF failed, unless that is allowed. */
  ghost predicate FlushesAs(y: System, allow: bool) {
    allow || !y.left.eofUnrecorded
  }

  ghost predicate SendsDataLate(y: System, allow: bool) {
    FlushesAs(y, allow) && DataBehindEof(y.out.Sent())
  }

  ghost predicate SendsEofTwice(y: System, allow: bool) {
    FlushesAs(y, allow) && SecondEof(y.out.Sent())
  }

  lemma RecordedEofIsLast(y: System)
    requires Inv(y) && !y.left.eofUnrecorded
    ensures !DataBehindEof(y.out.Sent()) && !SecondEof(y.out.Sent())
  {
    var q := y.out.Sent();
    forall i, j | 0 <= i < j < |q| ensures !(q[i].Eof? && (q[j].Data? || q[j].Eof?)) {
      assert MayFollow(true, q[i], q[j]);
    }
  }

  /** The flush of the first EOF fails; a second one goes out. */
  function TwoEofs(): seq<(Side, Action)> {
    [(Left, SendEof(true)), (Left, Flushed(RcError, true)), (Left, SendEof(true))]
  }

  /** The flush of an EOF fails; the EOF arrives all the same. */
  function EofArrives(): seq<(Side, Action)> {
    [(Left, SendEof(true)), (Left, Flushed(RcError, true)), (Right, Deliver(true))]
  }

  /** Then a byte is written, and arrives. */
  function ByteArrives(): seq<(Side, Action)> {
    [(Left, BeginWrite(Stdout, [7])), (Left, WritePacket(true)), (Right, Deliver(true))]
  }

  lemma RunThree(y: System, s: seq<(Side, Action)>)
    requires |s| == 3
    ensures Run(y, s) == Step(Step(Step(y, s[0].0, s[0].1), s[1].0, s[1].1), s[2].0, s[2].1)
  {
    assert s[1..][1..] == [s[2]] && s[1..][0] == s[1] && [s[2]][1..] == [];
    var y2 := Step(Step(y, s[0].0, s[0].1), s[1].0, s[1].1);
    assert Run(y2, [s[2]]) == Run(Step(y2, s[2].0, s[2].1), []);
  }

  lemma TwoEofsGoOut(l: Offer, r: Offer)
    ensures Run(Start(l, r), TwoEofs()).out.Sent() == [Eof, Eof]
  {
    RunThree(Start(l, r), TwoEofs());
  }

  lemma EofArrivesState(l: Offer, r: Offer)
    ensures
      var y := Run(Start(l, r), EofArrives());
      && y.left == Opened(l, r).(eofUnrecorded := true) && y.right.chan == RcvEof(Opened(r, l).chan)
      && y.out.received == [Eof] && y.out.flight == []
      && !y.out.ledger.dropped && !y.out.ledger.growFailed
  {
    RunThree(Start(l, r), EofArrives());
    assert [Eof][1..] == [];
  }

  lemma ByteArrivesState(l: Offer, r: Offer)
    requires Offered(l, r)
    ensures
      var z := Run(Run(Start(l, r), EofArrives()), ByteArrives());
      && z.right.chan == RcvEof(Opened(r, l).chan).(stdout := [7], localWindow := r.window - 1)
      && z.out.Sent() == [Eof, Data(Stdout, [7])]
      && !z.out.ledger.dropped && !z.out.ledger.growFailed
  {
    var y := Run(Start(l, r), EofArrives());
    EofArrivesState(l, r);
    RunThree(y, ByteArrives());
    var y2 := Step(Step(y, Left, BeginWrite(Stdout, [7])), Left, WritePacket(true));
    assert [7][..1] == [7];
    assert y2.out.flight == [Data(Stdout, [7])] && y2.right == y.right && y2.out.received == [Eof];
    assert [] + [7] == [7];
  }

  /** The byte behind the end of file can be read, with or without an adjust. */
  lemma ByteIsRead(c: Chan, n: nat)
    requires c.stdout == [7] && c.stderr == [] && n > 0 && c.flags.remoteEof && !c.flags.sessionError && c.state.Open?
    ensures Read(c, Stdout, n, true).result == Got([7])
  {
    assert [7][..1] == [7];
  }

  /**
   * An EOF whose flush fails goes unrecorded: at every offer a read then reports end of
   * file, and a later one returns a byte, with nothing dropped and no adjust failed.
   */
  lemma DataAfterUnrecordedEof(l: Offer, r: Offer, n: nat, m: nat, sendOk: bool)
    requires Offered(l, r) && n > 0 && m > 0
    ensures
      var y := Run(Start(l, r), EofArrives());
      var z := Run(y, ByteArrives());
      && Read(y.right.chan, Stdout, n, sendOk).result == Got([])
      && Read(z.right.chan, Stdout, m, true).result == Got([7])
      && z.out.Sent() == [Eof, Data(Stdout, [7])]
      && !z.out.ledger.dropped && !z.out.ledger.growFailed
  {
    EofArrivesState(l, r);
    ByteArrivesState(l, r);
    ByteIsRead(Run(Run(Start(l, r), EofArrives()), ByteArrives()).right.chan, m);
  }

  /**
   * At every offer some run sends data behind an EOF, and some run a second EOF, if and
   * only if the flush of an EOF may fail.
   */
  lemma EofIsLastExactly(l: Offer, r: Offer, allow: bool)
    requires Offered(l, r)
    ensures (exists steps :: SendsDataLate(Run(Start(l, r), steps), allow)) <==> allow
    ensures (exists steps :: SendsEofTwice(Run(Start(l, r), steps), allow)) <==> allow
  {
    if allow {
      ByteArrivesState(l, r);
      RunAppend(Start(l, r), EofArrives(), ByteArrives());
      var q := Run(Start(l, r), EofArrives() + ByteArrives()).out.Sent();
      assert q[0].Eof? && q[1].Data?;
      assert SendsDataLate(Run(Start(l, r), EofArrives() + ByteArrives()), allow);
      TwoEofsGoOut(l, r);
      var q' := Run(Start(l, r), TwoEofs()).out.Sent();
      assert q'[0].Eof? && q'[1].Eof?;
      assert SendsEofTwice(Run(Start(l, r), TwoEofs()), allow);
    } else {
      forall steps
        ensures !SendsDataLate(Run(Start(l, r), steps), allow) && !SendsEofTwice(Run(Start(l, r), steps), allow)
      {
        var y := Run(Start(l, r), steps);
        Reached(l, r, steps);
        if FlushesAs(y, allow) {
          RecordedEofIsLast(y);
        }
      }
    }
  }

  // ---- After a read that reported end of file ----

  /** From position `n` on, no packet of a queue carries data. */
  ghost predicate NoDataFrom(n: nat, q: seq<Packet>) {
    forall i :: n <= i < |q| ==> !q[i].Data?
  }

  lemma BufferStaysEmpty(y: System, side: Side, a: Action, s: Stream)
    requires y.right.chan.Buffer(s) == [] && NoDataFrom(|y.out.received|, y.out.Sent())
    ensures Step(y, side, a).right.chan.Buffer(s) == []
    ensures |Step(y, side, a).out.received| >= |y.out.received|
  {
    if side.Right? {
      RightBufferStaysEmpty(y.Swap(), a, s);
    } else {
      RightUntouched(y, a);
    }
  }

  lemma RightUntouched(y: System, a: Action)
    ensures
      var y' := StepLeft(y, a);
      && y'.right == y.right && y'.out.received == y.out.received
      && y'.back.history.wroteOut == y.back.history.wroteOut && y'.back.history.wroteErr == y.back.history.wroteErr
  {
  }

  lemma RightBufferStaysEmpty(y: System, a: Action, s: Stream)
    requires y.left.chan.Buffer(s) == [] && NoDataFrom(|y.back.received|, y.back.Sent())
    ensures StepLeft(y, a).left.chan.Buffer(s) == []
    ensures |StepLeft(y, a).back.received| >= |y.back.received|
  {
    if a.Deliver? && y.back.flight != [] {
      assert y.back.flight[0] == y.back.Sent()[|y.back.received|];
    } else if a.ReadSome? {
      EmptyReadKeeps(y.left.chan, a.stream, a.count, a.sendOk, s);
    } else {
      OtherStepKeepsBuffer(y, a, s);
    }
  }

  lemma OtherStepKeepsBuffer(y: System, a: Action, s: Stream)
    requires !a.ReadSome? && !(a.Deliver? && y.back.flight != [])
    ensures StepLeft(y, a).left.chan.Buffer(s) == y.left.chan.Buffer(s)
    ensures StepLeft(y, a).back.received == y.back.received
  {
  }

  lemma EmptyReadKeeps(c: Chan, stream: Stream, count: nat, sendOk: bool, s: Stream)
    requires c.Buffer(s) == []
    ensures Read(c, stream, count, sendOk).chan.Buffer(s) == []
  {
  }

  /** Once no data is to come, an empty buffer stays empty, drops or not. */
  lemma {:induction false} NothingMoreToRead(y: System, later: seq<(Side, Action)>, s: Stream)
    requires y.right.chan.Buffer(s) == [] && NoDataFrom(|y.out.received|, Run(y, later).out.Sent())
    ensures Run(y, later).right.chan.Buffer(s) == []
    decreases |later|
  {
    if later != [] {
      var y1 := Step(y, later[0].0, later[0].1);
      QueuesGrow(y, later);
      assert NoDataFrom(|y.out.received|, y.out.Sent()) by {
        forall i | |y.out.received| <= i < |y.out.Sent()| ensures !y.out.Sent()[i].Data? {
          assert y.out.Sent()[i] == Run(y, later).out.Sent()[i];
        }
      }
      BufferStaysEmpty(y, later[0].0, later[0].1, s);
      NothingMoreToRead(y1, later[1..], s);
    }
  }

  /** Some read reports end of file on a stream, and some later one returns bytes of it. */
  ghost predicate Resumes(y: System, z: System, s: Stream, n: nat, m: nat, sendOk: bool) {
    && n > 0 && Read(y.right.chan, s, n, true).result == Got([])
    && Read(z.right.chan, s, m, sendOk).Returned() != []
  }

  ghost predicate ResumesIn(l: Offer, r: Offer, steps: seq<(Side, Action)>, later: seq<(Side, Action)>, allow: bool) {
    var y := Run(Start(l, r), steps);
    var z := Run(y, later);
    FlushesAs(z, allow) && exists s, n, m, sendOk :: Resumes(y, z, s, n, m, sendOk)
  }

  lemma NoDataBehind(before: seq<Packet>, after: seq<Packet>)
    requires before <= after && InOrder(true, after) && (Eof in before || Close in before)
    ensures NoDataFrom(|before|, after)
  {
    var i :| 0 <= i < |before| && (before[i].Close? || before[i].Eof?);
    forall j | |before| <= j < |after| ensures !after[j].Data? {
      assert MayFollow(true, after[i], after[j]);
    }
  }

  lemma EofReported(c: Chan, s: Stream, n: nat)
    requires n > 0 && Read(c, s, n, true).result == Got([])
    ensures c.Buffer(s) == [] && c.flags.remoteEof
  {
  }

  lemma {:induction false} EofStays(y: System, z: System, s: Stream, n: nat)
    requires Inv(y) && Inv(z) && Extends(y.out, z.out) && !z.left.eofUnrecorded
    requires n > 0 && Read(y.right.chan, s, n, true).result == Got([])
    ensures y.right.chan.Buffer(s) == [] && NoDataFrom(|y.out.received|, z.out.Sent())
  {
    EofReported(y.right.chan, s, n);
    NoDataBehind(y.out.received, z.out.Sent());
  }

  /**
   * At every offer some read reports end of file and a later one returns bytes of that
   * stream, if and only if the flush of an EOF may fail.
   */
  lemma EndOfFileIsFinalExactly(l: Offer, r: Offer, allow: bool)
    requires Offered(l, r)
    ensures (exists steps, later :: ResumesIn(l, r, steps, later, allow)) <==> allow
  {
    if allow {
      DataAfterUnrecordedEof(l, r, 1, 1, true);
      var y := Run(Start(l, r), EofArrives());
      assert Resumes(y, Run(y, ByteArrives()), Stdout, 1, 1, true);
      assert ResumesIn(l, r, EofArrives(), ByteArrives(), allow);
    } else {
      forall steps, later ensures !ResumesIn(l, r, steps, later, allow) {
        if ResumesIn(l, r, steps, later, allow) {
          NeverResumes(l, r, steps, later);
        }
      }
    }
  }

  lemma NeverResumes(l: Offer, r: Offer, steps: seq<(Side, Action)>, later: seq<(Side, Action)>)
    requires Offered(l, r)
    ensures !ResumesIn(l, r, steps, later, false)
  {
    var y := Run(Start(l, r), steps);
    var z := Run(y, later);
    Reached(l, r, steps);
    EveryRun(y, later);
    QueuesGrow(y, later);
    forall s, n: nat, m: nat, sendOk ensures FlushesAs(z, false) ==> !Resumes(y, z, s, n, m, sendOk) {
      if FlushesAs(z, false) && n > 0 && Read(y.right.chan, s, n, true).result == Got([]) {
        EofStays(y, z, s, n);
        NothingMoreToRead(y, later, s);
        assert Read(z.right.chan, s, m, sendOk).Returned() == [];
      }
    }
  }

  // ---- After a CLOSE was received ----

  function Written(f: Flow): nat {
    |f.history.wroteOut| + |f.history.wroteErr|
  }

  /** A write is under way and neither its data, its window, its channel nor its session is at an end. */
  predicate GoesOn(p: Peer) {
    && p.pc.Writing? && p.pc.rest != [] && p.chan.remoteWindow > 0
    && !p.chan.state.Closed? && !p.chan.flags.sessionError
  }

  function StillToGo(p: Peer): nat {
    if GoesOn(p) then Min(|p.pc.rest|, p.chan.remoteWindow) else 0
  }

  /** A step that writes nothing and leaves no write under way that was not. */
  ghost predicate WritesNothing(y: System, y': System) {
    && y'.left.chan.flags.closedRemote == y.left.chan.flags.closedRemote
    && Written(y'.out) == Written(y.out) && !y'.left.pc.Writing?
  }

  lemma ClosingWritesNothing(y: System, goal: Goal, sendOk: bool)
    requires !y.left.pc.Writing?
    ensures WritesNothing(y, StartClose(y, goal, sendOk)) && WritesNothing(y, SendClose(y, goal, sendOk))
    ensures WritesNothing(y, AfterGoal(y, goal)) && WritesNothing(y, GiveUp(y, goal))
  {
  }

  lemma {:induction false} FlushedWritesNothing(y: System, flush: Rc, sendOk: bool)
    requires !y.left.pc.Writing?
    ensures WritesNothing(y, DoFlushed(y, flush, sendOk))
  {
    match y.left.pc
    case FlushEof(goal) => ClosingWritesNothing(y.(left := EofFlushEnds(y.left, flush)), goal, sendOk);
    case FlushClose(goal) => ClosingWritesNothing(y, goal, sendOk);
    case _ =>
  }

  /** What a step of this end leaves of what can still go. */
  ghost predicate NoMoreToGo(y: System, y': System) {
    && y'.left.chan.flags.closedRemote
    && Written(y'.out) + StillToGo(y'.left) <= Written(y.out) + StillToGo(y.left)
  }

  lemma WriteStepAfterClose(y: System, a: Action)
    requires Inv(y) && y.left.chan.flags.closedRemote
    requires a.BeginWrite? || a.WritePacket? || a.StopWrite? || a.TransportFails?
    ensures NoMoreToGo(y, StepLeft(y, a))
  {
    assert !CanWrite(y.left.chan);
  }

  lemma OtherStepAfterClose(y: System, a: Action)
    requires Inv(y) && y.left.chan.flags.closedRemote && !y.left.pc.Writing?
    requires a.ReadSome? || a.SendEof? || a.CloseCall? || a.FreeCall? || a.Flushed?
    ensures NoMoreToGo(y, StepLeft(y, a))
  {
    match a
    case ReadSome(stream, count, sendOk) => ReadEffect(y.left.chan, stream, count, sendOk);
    case CloseCall(sendOk) => ClosingWritesNothing(y, JustClose, sendOk);
    case FreeCall(sendOk) => ClosingWritesNothing(y, ThenFree, sendOk);
    case Flushed(flush, sendOk) => FlushedWritesNothing(y, flush, sendOk);
    case _ =>
  }

  lemma {:induction false} OwnStepAfterClose(y: System, a: Action)
    requires Inv(y) && y.left.chan.flags.closedRemote
    ensures NoMoreToGo(y, StepLeft(y, a))
  {
    if a.Deliver? {
      NothingAfterClose(y.right, y.left, y.back);
    } else if a.BeginWrite? || a.WritePacket? || a.StopWrite? || a.TransportFails? {
      WriteStepAfterClose(y, a);
    } else if !y.left.pc.Writing? {
      OtherStepAfterClose(y, a);
    }
  }

  /** From a received CLOSE on, the bytes written and those still to go do not grow together. */
  lemma {:induction false} BoundAfterClose(y: System, later: seq<(Side, Action)>)
    requires Inv(y) && y.left.chan.flags.closedRemote
    ensures Written(Run(y, later).out) <= Written(y.out) + StillToGo(y.left)
    decreases |later|
  {
    if later != [] {
      var a := later[0].1;
      if later[0].0.Left? {
        StepLeftKeeps(y, a);
        OwnStepAfterClose(y, a);
      } else {
        StepLeftKeeps(y.Swap(), a);
        RightUntouched(y.Swap(), a);
      }
      BoundAfterClose(Step(y, later[0].0, a), later[1..]);
    }
  }

  lemma OneMorePacket(y: System)
    requires GoesOn(y.left) && y.left.chan.remoteMaxPacket > 0
    ensures
      var y' := StepLeft(y, WritePacket(true));
      && y'.left.pc.Writing? && |y'.left.pc.rest| < |y.left.pc.rest|
      && y'.left.chan.remoteMaxPacket == y.left.chan.remoteMaxPacket
      && Written(y'.out) + StillToGo(y'.left) == Written(y.out) + StillToGo(y.left)
  {
  }

  /** The run that sends all that can still go. */
  lemma {:induction false} WriteOut(y: System) returns (later: seq<(Side, Action)>)
    requires y.left.chan.remoteMaxPacket > 0
    ensures Written(Run(y, later).out) == Written(y.out) + StillToGo(y.left)
    decreases if y.left.pc.Writing? then |y.left.pc.rest| else 0
  {
    later := [];
    if GoesOn(y.left) {
      OneMorePacket(y);
      var rest := WriteOut(StepLeft(y, WritePacket(true)));
      later := [(Left, WritePacket(true))] + rest;
      assert later[1..] == rest;
    }
  }

  /**
   * In every reachable state of an end that received CLOSE: the most that any
   * continuation still sends is what its write has left, within its window, and something
   * is still sent by some continuation if and only if that write can go on.
   */
  lemma DataAfterCloseExactly(l: Offer, r: Offer, steps: seq<(Side, Action)>)
    requires Offered(l, r) && Run(Start(l, r), steps).left.chan.flags.closedRemote
    ensures
      var y := Run(Start(l, r), steps);
      && (forall later :: Written(Run(y, later).out) <= Written(y.out) + StillToGo(y.left))
      && (exists later :: Written(Run(y, later).out) == Written(y.out) + StillToGo(y.left))
      && ((exists later :: Written(Run(y, later).out) > Written(y.out)) <==> GoesOn(y.left))
      && StillToGo(y.left) <= y.left.chan.remoteWindow
  {
    var y := Run(Start(l, r), steps);
    Reached(l, r, steps);
    forall later ensures Written(Run(y, later).out) <= Written(y.out) + StillToGo(y.left) {
      BoundAfterClose(y, later);
    }
    var later := WriteOut(y);
    assert Written(Run(y, later).out) == Written(y.out) + StillToGo(y.left);
  }

  /** A write of two bytes into a window of one has sent the first and waits. */
  function WriteWaits(): System {
    var o := Offer(1, 1);
    Step(Step(Start(o, o), Left, BeginWrite(Stdout, [7, 8])), Left, WritePacket(true))
  }

  /** Meanwhile the other end writes a byte, and reads the one it got. */
  function OtherEndReads(): System {
    var y := Step(WriteWaits(), Right, BeginWrite(Stdout, [9]));
    var y1 := Step(Step(y, Right, WritePacket(true)), Right, StopWrite);
    Step(Step(y1, Right, Deliver(true)), Right, ReadSome(Stdout, 1, true))
  }

  /** It closes. */
  function OtherEndCloses(): System {
    Step(Step(OtherEndReads(), Right, CloseCall(true)), Right, Flushed(RcOk, true))
  }

  /** Its byte, its adjust, its EOF and its CLOSE arrive. */
  function CloseArrives(): System {
    var y := Step(Step(OtherEndCloses(), Left, Deliver(true)), Left, Deliver(true));
    Step(Step(y, Left, Deliver(true)), Left, Deliver(true))
  }

  lemma WriteWaitsState()
    ensures
      var y := WriteWaits();
      && y.left == Opened(Offer(1, 1), Offer(0, 1)).(pc := Writing(Stdout, [8]))
      && y.right == Opened(Offer(1, 1), Offer(1, 1))
      && y.out.flight == [Data(Stdout, [7])] && y.back.flight == []
  {
    assert [7, 8][..1] == [7] && [7, 8][1..] == [8];
  }

  lemma OtherEndReadsState()
    ensures
      var y := OtherEndReads();
      && y.left == WriteWaits().left && y.out.flight == []
      && y.right.pc.Idle? && y.right.chan.flags == Opened(Offer(1, 1), Offer(1, 1)).chan.flags
      && y.back.flight == [Data(Stdout, [9]), WindowAdjust(WINDOW_DEFAULT)]
  {
    WriteWaitsState();
    var y := Step(WriteWaits(), Right, BeginWrite(Stdout, [9]));
    var y1 := Step(Step(y, Right, WritePacket(true)), Right, StopWrite);
    assert y1.back.flight == [Data(Stdout, [9])] && y1.right == Opened(Offer(1, 1), Offer(0, 1)) by {
      assert [9][..1] == [9];
    }
    var y2 := Step(y1, Right, Deliver(true));
    assert y2.right.chan.stdout == [7] && y2.right.chan.localWindow == 0 && y2.out.flight == [];
  }

  lemma OtherEndClosesState()
    ensures
      var y := OtherEndCloses();
      && y.left == WriteWaits().left && y.out.flight == []
      && y.back.flight == [Data(Stdout, [9]), WindowAdjust(WINDOW_DEFAULT), Eof, Close]
  {
    OtherEndReadsState();
    EndCloses(OtherEndReads());
  }

  lemma EndCloses(y: System)
    requires y.right.pc.Idle? && !y.right.chan.flags.closedLocal && !y.right.chan.flags.localEof
    ensures
      var z := Step(Step(y, Right, CloseCall(true)), Right, Flushed(RcOk, true));
      z.left == y.left && z.out == y.out && z.back.flight == y.back.flight + [Eof] + [Close]
  {
  }

  /** One delivery to the left end. */
  lemma Delivery(y: System)
    requires y.back.flight != []
    ensures
      var y1 := Step(y, Left, Deliver(true));
      && y1.left == y.left.(chan := Receive(y.left.chan, y.back.flight[0], true))
      && y1.back.flight == y.back.flight[1..] && y1.out == y.out
  {
  }

  lemma FourArrive(c: Chan)
    requires c == Opened(Offer(1, 1), Offer(0, 1)).chan
    ensures
      var c1 := Receive(Receive(c, Data(Stdout, [9]), true), WindowAdjust(WINDOW_DEFAULT), true);
      var c2 := Receive(Receive(c1, Eof, true), Close, true);
      && c2.remoteWindow == WINDOW_DEFAULT && c2.remoteMaxPacket == 1 && c2.state.Open? && !c2.flags.sessionError
      && c2.flags.closedRemote && !c2.flags.closedLocal
  {
  }

  /** The unread byte delays the close, so the write goes on: data follows a received CLOSE. */
  lemma DataAfterClose()
    ensures
      var y := CloseArrives();
      && y.left.chan.flags.closedRemote && !y.left.chan.flags.closedLocal
      && Step(y, Left, WritePacket(true)).out.flight == [Data(Stdout, [8])]
  {
    OtherEndClosesState();
    WriteWaitsState();
    var y0 := OtherEndCloses();
    var y1 := Step(y0, Left, Deliver(true));
    var y2 := Step(y1, Left, Deliver(true));
    var y3 := Step(y2, Left, Deliver(true));
    Delivery(y0);
    Delivery(y1);
    Delivery(y2);
    Delivery(y3);
    FourArrive(y0.left.chan);
    WritesOn(CloseArrives());
  }

  lemma WritesOn(y: System)
    requires y.left.pc == Writing(Stdout, [8]) && y.out.flight == []
    requires y.left.chan.remoteWindow > 0 && y.left.chan.remoteMaxPacket > 0
    requires y.left.chan.state.Open? && !y.left.chan.flags.sessionError
    ensures Step(y, Left, WritePacket(true)).out.flight == [Data(Stdout, [8])]
  {
    assert [8][..1] == [8];
  }
}
