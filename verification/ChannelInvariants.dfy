/** What every step of either end of the channel keeps, and hence what holds in every run. */
module ChannelInvariants {
  import opened Octets
  import opened ChannelSpec
  import opened ChannelPair

  // ---- Queues ----

  lemma {:induction false} QueueAppend(q: seq<Packet>, ps: seq<Packet>)
    ensures Load(q + ps) == Load(q) + Load(ps)
    ensures Credit(q + ps) == Credit(q) + Credit(ps)
    ensures forall s :: PayloadOf(q + ps, s) == PayloadOf(q, s) + PayloadOf(ps, s)
  {
    if q == [] {
      assert q + ps == ps;
    } else {
      QueueAppend(q[1..], ps);
      assert (q + ps)[0] == q[0] && (q + ps)[1..] == q[1..] + ps;
    }
  }

  lemma QueueOne(p: Packet)
    ensures Load([p]) == if p.Data? then |p.payload| else 0
    ensures Credit([p]) == if p.WindowAdjust? then p.bytes else 0
    ensures forall s :: PayloadOf([p], s) == if p.Data? && p.stream == s then p.payload else []
  {
    assert [p][1..] == [];
  }

  // ---- The invariant, for the direction from sender `s` to receiver `r` ----

  /** Window conservation: what the sender believes plus what is in flight is what the receiver granted. */
  ghost predicate Conserved(s: Peer, r: Peer, f: Flow, g: Flow) {
    s.chan.remoteWindow + Load(f.flight) + Credit(g.flight) + f.ledger.lost == r.chan.localWindow
  }

  ghost predicate Bounded(r: Peer, f: Flow) {
    && r.chan.Reserved() <= WINDOW_DEFAULT
    && 0 < f.ledger.initialWindow <= WINDOW_DEFAULT
  }

  /** The receiver side of a stream: read, then buffered, is what was delivered. */
  ghost predicate StreamDelivered(r: Peer, f: Flow) {
    !f.ledger.dropped ==> forall s :: f.Took(s) + r.chan.Buffer(s) == PayloadOf(f.received, s)
  }

  /** The sender side of a stream: the packets carry what the writes accepted. */
  ghost predicate StreamSent(f: Flow) {
    forall s :: PayloadOf(f.Sent(), s) == f.Wrote(s)
  }

  /** Nothing follows a CLOSE; with `strict`, neither data nor EOF follows an EOF. */
  ghost predicate MayFollow(strict: bool, p: Packet, q: Packet) {
    !p.Close? && (strict && p.Eof? ==> !q.Data? && !q.Eof?)
  }

  ghost predicate InOrder(strict: bool, q: seq<Packet>) {
    forall i, j :: 0 <= i < j < |q| ==> MayFollow(strict, q[i], q[j])
  }

  ghost predicate SentEof(s: Peer) {
    s.chan.flags.localEof || s.pc.FlushEof?
  }

  /** The flags of both ends record exactly which closing packets were sent and delivered. */
  ghost predicate ClosingPackets(s: Peer, r: Peer, f: Flow) {
    && InOrder(!s.eofUnrecorded, f.Sent())
    && (Close in f.Sent() <==> s.chan.flags.closedLocal)
    && (Eof in f.Sent() <==> SentEof(s) || s.eofUnrecorded)
    && (Close in f.received <==> r.chan.flags.closedRemote)
    && (Eof in f.received || Close in f.received <==> r.chan.flags.remoteEof)
  }

  /** The flags, state and program counter of one end fit together. */
  ghost predicate Consistent(p: Peer) {
    && (p.chan.state.Open? || p.chan.state.Closed?)
    && !p.chan.flags.fatal
    && (p.chan.flags.closedLocal ==> p.chan.state.Closed? && p.chan.flags.localEof && !p.pc.Writing? && !p.pc.FlushEof?)
    && (p.chan.flags.localEof ==> !p.pc.Writing? && !p.pc.FlushEof?)
    && (p.chan.state.Closed? ==> p.chan.flags.closedLocal || p.chan.flags.closedRemote)
    && (p.chan.flags.freedLocal <==> p.pc.Gone?)
    && (p.chan.flags.released <==> p.chan.flags.freedLocal && p.chan.flags.closedRemote)
    && (p.freeFailed <==> p.pc.Gone? && !p.chan.flags.closedLocal)
    && (p.chan.flags.delayedClose ==> p.chan.flags.closedRemote)
    && (p.chan.flags.closedRemote && !p.chan.flags.closedLocal ==> (p.chan.state.Closed? <==> !p.chan.HasUnread()))
    && (p.chan.flags.closedRemote && p.chan.state.Open? ==> p.chan.flags.delayedClose)
  }

  /** Credit the receiver has handed out, and when it must hand out more. */
  ghost predicate Granting(r: Peer, f: Flow) {
    && f.ledger.releases == (if r.chan.flags.released then 1 else 0)
    && f.ledger.adjusts * HALF_WINDOW <= f.ledger.granted
    && (!f.ledger.dropped ==> f.ledger.lost == 0 && f.ledger.discarded == 0)
    && f.ledger.granted + f.ledger.initialWindow == r.chan.Reserved() + f.Consumed() + f.ledger.discarded
    && (!f.ledger.dropped && !f.ledger.growFailed ==>
          r.chan.Reserved() > HALF_WINDOW || r.chan.Reserved() == f.ledger.initialWindow)
  }

  ghost predicate PacketSizes(s: Peer, f: Flow) {
    && s.chan.remoteMaxPacket > 0
    && forall p :: p in f.Sent() && p.Data? ==> 1 <= |p.payload| <= s.chan.remoteMaxPacket
  }

  ghost predicate Direction(s: Peer, r: Peer, f: Flow, g: Flow) {
    && Conserved(s, r, f, g)
    && Bounded(r, f)
    && StreamDelivered(r, f)
    && StreamSent(f)
    && ClosingPackets(s, r, f)
    && Consistent(s)
    && Granting(r, f)
    && PacketSizes(s, f)
  }

  ghost predicate Inv(y: System) {
    Direction(y.left, y.right, y.out, y.back) && Direction(y.right, y.left, y.back, y.out)
  }

  // ---- Every step keeps it ----

  /** The queue a flow has sent after appending one packet. */
  lemma SentOne(f: Flow, p: Packet)
    ensures f.Send([p]).Sent() == f.Sent() + [p]
    ensures Load(f.flight + [p]) == Load(f.flight) + if p.Data? then |p.payload| else 0
    ensures Credit(f.flight + [p]) == Credit(f.flight) + if p.WindowAdjust? then p.bytes else 0
    ensures forall s :: PayloadOf(f.Sent() + [p], s)
                     == PayloadOf(f.Sent(), s) + if p.Data? && p.stream == s then p.payload else []
  {
    assert f.received + (f.flight + [p]) == (f.received + f.flight) + [p];
    QueueAppend(f.flight, [p]);
    QueueAppend(f.Sent(), [p]);
    QueueOne(p);
  }

  /** An end may send packet `p`: it has not closed, and sends neither data nor EOF after EOF. */
  ghost predicate MaySend(s: Peer, p: Packet) {
    !s.chan.flags.closedLocal && (SentEof(s) ==> !p.Data? && !p.Eof?)
  }

  lemma StaysInOrder(s: Peer, r: Peer, f: Flow, p: Packet)
    requires ClosingPackets(s, r, f) && MaySend(s, p)
    ensures InOrder(!s.eofUnrecorded, f.Sent() + [p])
  {
    forall i, j | 0 <= i < j < |f.Sent() + [p]|
      ensures MayFollow(!s.eofUnrecorded, (f.Sent() + [p])[i], (f.Sent() + [p])[j])
    {
      assert f.Sent()[i] in f.Sent();
    }
  }

  /** The sender's flags after it sent `p`. */
  ghost predicate FlagsAfter(s: Peer, s': Peer, p: Packet) {
    && (s'.chan.flags.closedLocal <==> p.Close?)
    && (SentEof(s') <==> SentEof(s) || p.Eof?)
    && s'.eofUnrecorded == s.eofUnrecorded
  }

  /** Sending one packet, seen from the direction it travels in. */
  lemma SenderEmits(s: Peer, s': Peer, r: Peer, f: Flow, f': Flow, g: Flow, p: Packet)
    requires Direction(s, r, f, g)
    requires MaySend(s, p) && FlagsAfter(s, s', p) && Consistent(s')
    requires s'.chan.remoteMaxPacket == s.chan.remoteMaxPacket
    requires s.chan.remoteWindow == s'.chan.remoteWindow + if p.Data? then |p.payload| else 0
    requires p.Data? ==> 1 <= |p.payload| <= s.chan.remoteMaxPacket
    requires f' == if p.Data? then f.Send([p]).AddWrote(p.stream, p.payload) else f.Send([p])
    ensures Direction(s', r, f', g)
  {
    SentOne(f, p);
    assert f'.Sent() == f.Sent() + [p];
    StaysInOrder(s, r, f, p);
    assert StreamDelivered(r, f');
  }

  lemma BeginWriteKeeps(y: System, stream: Stream, data: seq<byte>)
    requires Inv(y)
    ensures Inv(DoBeginWrite(y, stream, data))
  {
  }

  lemma StopWriteKeeps(y: System)
    requires Inv(y)
    ensures Inv(DoStopWrite(y))
  {
  }

  lemma WritePacketKeeps(y: System, sendOk: bool)
    requires Inv(y)
    ensures Inv(DoWritePacket(y, sendOk))
  {
    var p := y.left;
    var y' := DoWritePacket(y, sendOk);
    if p.pc.Writing? && p.pc.rest != [] && p.chan.remoteWindow > 0 && !p.chan.state.Closed?
       && !p.chan.flags.sessionError && sendOk {
      var n := PacketLength(p.chan, |p.pc.rest|);
      var d := Data(p.pc.stream, p.pc.rest[..n]);
      SenderEmits(y.left, y'.left, y.right, y.out, y'.out, y.back, d);
      SentOne(y.out, d);
    }
  }

  /** Reading changes neither the flags nor the sending half of a channel. */
  ghost predicate SameFlags(c: Chan, c1: Chan) {
    c1.remoteWindow == c.remoteWindow && c1.remoteMaxPacket == c.remoteMaxPacket && c1.flags == c.flags
  }

  /** Growing a window that respects the bound: no 32-bit sum wraps, and the bound is kept. */
  lemma GrowEffect(c: Chan, sendOk: bool)
    requires c.Reserved() <= WINDOW_DEFAULT
    ensures
      var g := Grow(c, sendOk);
      && SameFlags(c, g.chan)
      && g.chan.state == c.state
      && g.chan.stdout == c.stdout && g.chan.stderr == c.stderr
      && g.chan.localWindow == c.localWindow + g.granted
      && g.chan.Reserved() <= WINDOW_DEFAULT
      && (g.ok ==> g.chan.Reserved() > HALF_WINDOW)
      && (g.granted == 0 || g.granted >= HALF_WINDOW)
  {
  }

  /** `c1` is `c` with `taken` removed from the front of one stream, and a delayed close completed. */
  ghost predicate IsTake(c: Chan, stream: Stream, taken: seq<byte>, c1: Chan) {
    && c.Buffer(stream) == taken + c1.Buffer(stream)
    && (stream.Stdout? ==> c1.stderr == c.stderr)
    && (stream.Stderr? ==> c1.stdout == c.stdout)
    && SameFlags(c, c1)
    && c1.state == if c.flags.delayedClose && !c1.HasUnread() then Closed else c.state
  }

  lemma TakeEffect(c: Chan, stream: Stream, n: nat)
    requires n <= |c.Buffer(stream)|
    ensures IsTake(c, stream, c.Buffer(stream)[..n], AfterTake(c, stream, n))
    ensures AfterTake(c, stream, n).Reserved() + n == c.Reserved()
    ensures AfterTake(c, stream, n).localWindow == c.localWindow
  {
  }

  /** What a read may do to the channel. */
  ghost predicate TookFrom(c: Chan, stream: Stream, r: Reading) {
    || (r.chan == c && r.granted == 0 && r.taken == [] && r.Returned() == [])
    || (&& r.taken != []
        && !c.state.Closed?
        && IsTake(c, stream, r.taken, r.chan)
        && r.chan.localWindow == c.localWindow + r.granted
        && r.chan.Reserved() + |r.taken| == c.Reserved() + r.granted
        && r.chan.Reserved() <= WINDOW_DEFAULT
        && (r.granted == 0 || r.granted >= HALF_WINDOW)
        && (r.result == Error || r.result == Got(r.taken))
        && (!r.result.Error? ==> r.chan.Reserved() > HALF_WINDOW))
  }

  /** A read either takes nothing and changes nothing, or takes from the front and may grow the window. */
  lemma {:induction false} ReadEffect(c: Chan, stream: Stream, count: nat, sendOk: bool)
    requires c.Reserved() <= WINDOW_DEFAULT
    ensures TookFrom(c, stream, Read(c, stream, count, sendOk))
  {
    var r := Read(c, stream, count, sendOk);
    if r.taken != [] {
      var n := Min(|c.Buffer(stream)|, count);
      TakeEffect(c, stream, n);
      GrowEffect(AfterTake(c, stream, n), sendOk);
    }
  }

  /** Reading, seen from the direction the data travels in. */
  lemma {:induction false} ReceiverReads(s: Peer, r: Peer, f: Flow, g: Flow,
                      stream: Stream, x: Reading, f': Flow, g': Flow, r': Peer)
    requires Direction(s, r, f, g)
    requires TookFrom(r.chan, stream, x) && r'.chan == x.chan
    requires f' == AfterRead(f, stream, x)
    requires g'.flight == g.flight + AdjustPackets(x.granted)
    ensures Direction(s, r', f', g')
  {
    ReaderConserves(s, r, f, g, stream, x, f', g', r');
    ReaderGrants(r, f, stream, x, f', r');
    ReceiverStream(r.chan, f, stream, x, f');
    assert f'.Sent() == f.Sent() && f'.received == f.received;
    assert StreamDelivered(r', f');
    assert StreamSent(f') && ClosingPackets(s, r', f') && PacketSizes(s, f');
  }

  lemma ReaderConserves(s: Peer, r: Peer, f: Flow, g: Flow, stream: Stream, x: Reading, f': Flow, g': Flow, r': Peer)
    requires Conserved(s, r, f, g) && TookFrom(r.chan, stream, x) && r'.chan == x.chan
    requires f'.flight == f.flight && f'.ledger.lost == f.ledger.lost
    requires g'.flight == g.flight + AdjustPackets(x.granted)
    ensures Conserved(s, r', f', g')
  {
    QueueAppend(g.flight, AdjustPackets(x.granted));
    QueueOne(WindowAdjust(x.granted));
  }

  lemma ReaderGrants(r: Peer, f: Flow, stream: Stream, x: Reading, f': Flow, r': Peer)
    requires Granting(r, f) && TookFrom(r.chan, stream, x) && r'.chan == x.chan
    requires f' == AfterRead(f, stream, x)
    ensures Granting(r', f')
  {
    assert f'.Consumed() == f.Consumed() + |x.taken|;
  }

  lemma ReceiverStream(c: Chan, f: Flow, stream: Stream, x: Reading, f': Flow)
    requires TookFrom(c, stream, x)
    requires f' == AfterRead(f, stream, x)
    ensures forall t :: f'.Took(t) + x.chan.Buffer(t) == f.Took(t) + c.Buffer(t)
  {
    forall t ensures f'.Took(t) + x.chan.Buffer(t) == f.Took(t) + c.Buffer(t) {
      if t == stream && x.taken != [] {
        assert f.Took(t) + (x.taken + x.chan.Buffer(t)) == (f.Took(t) + x.taken) + x.chan.Buffer(t);
      }
    }
  }

  lemma {:induction false} ReadKeeps(y: System, stream: Stream, count: nat, sendOk: bool)
    requires Inv(y)
    ensures Inv(DoRead(y, stream, count, sendOk))
  {
    if y.left.pc.Idle? {
      var y' := DoRead(y, stream, count, sendOk);
      var x := Read(y.left.chan, stream, count, sendOk);
      ReadEffect(y.left.chan, stream, count, sendOk);
      ReadKeepsBoth(y, y', stream, x);
    }
  }

  lemma ReadKeepsBoth(y: System, y': System, stream: Stream, x: Reading)
    requires Inv(y) && y.left.pc.Idle?
    requires TookFrom(y.left.chan, stream, x) && y'.left == y.left.(chan := x.chan)
    requires y'.right == y.right && y'.out == y.out.Send(AdjustPackets(x.granted))
    requires y'.back == AfterRead(y.back, stream, x)
    ensures Inv(y')
  {
    ReceiverReads(y.right, y.left, y.back, y.out, stream, x, y'.back, y'.out, y'.left);
    ReaderEmits(y, y', stream, x);
  }

  lemma ReaderEmits(y: System, y': System, stream: Stream, x: Reading)
    requires Direction(y.left, y.right, y.out, y.back) && y.left.pc.Idle?
    requires TookFrom(y.left.chan, stream, x) && y'.left == y.left.(chan := x.chan)
    requires y'.right == y.right && y'.out == y.out.Send(AdjustPackets(x.granted))
    requires y'.back.flight == y.back.flight
    ensures Direction(y'.left, y'.right, y'.out, y'.back)
  {
    assert Consistent(y'.left);
    if x.granted != 0 {
      SenderEmits(y.left, y'.left, y.right, y.out, y'.out, y.back, WindowAdjust(x.granted));
    } else {
      assert y.out.Send([]) == y.out;
    }
  }

  lemma SendEofKeeps(y: System, sendOk: bool)
    requires Inv(y)
    ensures Inv(DoSendEof(y, sendOk))
  {
    if y.left.pc.Idle? && !y.left.chan.flags.localEof && sendOk {
      EofKeeps(y, JustEof);
    }
  }

  lemma EofKeeps(y: System, goal: Goal)
    requires Inv(y) && y.left.pc.Idle? && !y.left.chan.flags.localEof
    ensures Inv(y.(left := y.left.(pc := FlushEof(goal)), out := y.out.Send([Eof])))
  {
    SenderEmits(y.left, y.left.(pc := FlushEof(goal)), y.right, y.out, y.out.Send([Eof]), y.back, Eof);
    SentOne(y.out, Eof);
  }

  lemma AfterGoalKeeps(y: System, goal: Goal)
    requires Inv(y) && !y.left.pc.Gone? && !y.left.pc.FlushEof?
    requires goal.ThenFree? ==> y.left.chan.flags.closedLocal
    ensures Inv(AfterGoal(y, goal))
  {
  }

  lemma GiveUpKeeps(y: System, goal: Goal)
    requires Inv(y) && !y.left.pc.Gone? && !y.left.pc.FlushEof? && !y.left.chan.flags.closedLocal
    ensures Inv(GiveUp(y, goal))
  {
  }

  lemma SendCloseKeeps(y: System, goal: Goal, sendOk: bool)
    requires Inv(y) && y.left.pc.Idle? && y.left.chan.flags.localEof && !y.left.chan.flags.closedLocal && !goal.JustEof?
    ensures Inv(SendClose(y, goal, sendOk))
  {
    var y' := SendClose(y, goal, sendOk);
    if sendOk {
      SenderEmits(y.left, y'.left, y.right, y.out, y'.out, y.back, Close);
      SentOne(y.out, Close);
    }
  }

  lemma {:induction false} StartCloseKeeps(y: System, goal: Goal, sendOk: bool)
    requires Inv(y) && y.left.pc.Idle? && !goal.JustEof?
    ensures Inv(StartClose(y, goal, sendOk))
  {
    if y.left.chan.flags.closedLocal {
      AfterGoalKeeps(y, goal);
    } else if y.left.chan.flags.localEof {
      SendCloseKeeps(y, goal, sendOk);
    } else if sendOk {
      EofKeeps(y, goal);
    } else {
      GiveUpKeeps(y, goal);
    }
  }

  lemma {:induction false} FreeKeeps(y: System, sendOk: bool)
    requires Inv(y)
    ensures Inv(DoFree(y, sendOk))
  {
    if y.left.pc.Idle? {
      if FreeSendsClose(y.left.chan) {
        StartCloseKeeps(y, ThenFree, sendOk);
      } else {
        AfterGoalKeeps(y, ThenFree);
      }
    }
  }

  lemma EofFlushedKeeps(y: System, flush: Rc)
    requires Inv(y) && y.left.pc.FlushEof?
    ensures Inv(y.(left := EofFlushEnds(y.left, flush)))
  {
    var s, s' := y.left, EofFlushEnds(y.left, flush);
    assert InOrder(!s'.eofUnrecorded, y.out.Sent()) by {
      forall i, j | 0 <= i < j < |y.out.Sent()|
        ensures MayFollow(!s'.eofUnrecorded, y.out.Sent()[i], y.out.Sent()[j])
      {
        assert MayFollow(!s.eofUnrecorded, y.out.Sent()[i], y.out.Sent()[j]);
      }
    }
    assert Direction(s', y.right, y.out, y.back);
    assert Direction(y.right, s', y.back, y.out);
  }

  lemma {:induction false} AfterEofFlushKeeps(y: System, goal: Goal, flush: Rc, sendOk: bool)
    requires Inv(y) && y.left.pc == FlushEof(goal)
    ensures Inv(DoFlushed(y, flush, sendOk))
  {
    EofFlushedKeeps(y, flush);
    var y1 := y.(left := EofFlushEnds(y.left, flush));
    if !goal.JustEof? {
      if flush.RcOk? {
        SendCloseKeeps(y1, goal, sendOk);
      } else {
        GiveUpKeeps(y1, goal);
      }
    }
  }

  lemma {:induction false} FlushedKeeps(y: System, flush: Rc, sendOk: bool)
    requires Inv(y)
    ensures Inv(DoFlushed(y, flush, sendOk))
  {
    match y.left.pc
    case FlushEof(goal) => AfterEofFlushKeeps(y, goal, flush, sendOk);
    case FlushClose(goal) =>
      if y.left.chan.flags.closedLocal {
        AfterGoalKeeps(y, goal);
      } else {
        GiveUpKeeps(y, goal);
      }
    case _ =>
  }

  // ---- Delivery ----

  lemma {:induction false} ReceiveKeepsFlags(c: Chan, p: Packet, allocOk: bool)
    ensures Receive(c, p, allocOk).flags.closedLocal == c.flags.closedLocal
    ensures Receive(c, p, allocOk).flags.sessionError == c.flags.sessionError
  {
    match p
    case Data(_, _) =>
    case WindowAdjust(_) =>
    case Eof =>
    case Close =>
  }

  lemma NotClose(strict: bool, q: seq<Packet>, i: nat, j: nat)
    requires InOrder(strict, q) && i < j < |q|
    ensures !q[i].Close?
  {
    assert MayFollow(strict, q[i], q[j]);
  }

  /** After CLOSE was delivered nothing is in flight, so no packet can meet a released channel. */
  lemma NothingAfterClose(s: Peer, r: Peer, f: Flow)
    requires ClosingPackets(s, r, f) && Consistent(r)
    ensures r.chan.flags.closedRemote || r.chan.flags.released ==> f.flight == []
  {
    forall k | 0 <= k < |f.received| && f.flight != [] ensures f.received[k] != Close {
      NotClose(!s.eofUnrecorded, f.Sent(), k, |f.received|);
    }
  }

  /** Moving the head of the queue to the delivered packets. */
  lemma DeliverOne(f: Flow, f': Flow)
    requires f.flight != []
    requires f'.received == f.received + [f.flight[0]] && f'.flight == f.flight[1..]
    ensures f'.Sent() == f.Sent()
    ensures
      var p := f.flight[0];
      forall s :: PayloadOf(f'.received, s)
               == PayloadOf(f.received, s) + if p.Data? && p.stream == s then p.payload else []
  {
    QueueAppend(f.received, [f.flight[0]]);
    QueueOne(f.flight[0]);
  }

  lemma {:induction false} DeliverData(y: System, y': System, allocOk: bool)
    requires Inv(y) && y' == DoDeliver(y, allocOk)
    requires y.back.flight != [] && y.back.flight[0].Data?
    ensures Inv(y')
  {
    var p := y.back.flight[0];
    NothingAfterClose(y.right, y.left, y.back);
    DeliverOne(y.back, y'.back);
    assert |p.payload| <= y.left.chan.localWindow;
    if allocOk {
      DataStored(y.right, y.left, y'.left, y.back, y'.back, y.out, p);
    } else {
      assert y'.left.chan == y.left.chan.WithBuffer(p.stream, []);
      assert Direction(y'.right, y'.left, y'.back, y'.out);
    }
    assert Direction(y'.left, y'.right, y'.out, y'.back);
  }

  lemma DataStored(s: Peer, r: Peer, r': Peer, f: Flow, f': Flow, g: Flow, p: Packet)
    requires Direction(s, r, f, g) && f.flight != [] && p == f.flight[0] && p.Data?
    requires |p.payload| <= r.chan.localWindow
    requires r'.chan == r.chan.WithBuffer(p.stream, r.chan.Buffer(p.stream) + p.payload).(
                          localWindow := r.chan.localWindow - |p.payload|)
    requires f'.received == f.received + [p] && f'.flight == f.flight[1..]
    requires f'.history == f.history && f'.ledger == f.ledger
    ensures Direction(s, r', f', g)
  {
    DeliverOne(f, f');
    assert StreamDelivered(r', f') by {
      if !f'.ledger.dropped {
        forall t ensures f'.Took(t) + r'.chan.Buffer(t) == PayloadOf(f'.received, t) {
          assert f.Took(t) + (r.chan.Buffer(t) + p.payload) == (f.Took(t) + r.chan.Buffer(t)) + p.payload;
        }
      }
    }
  }

  lemma DeliverAdjust(y: System, y': System, allocOk: bool)
    requires Inv(y) && y' == DoDeliver(y, allocOk)
    requires y.back.flight != [] && y.back.flight[0].WindowAdjust?
    ensures Inv(y')
  {
    NothingAfterClose(y.right, y.left, y.back);
    DeliverOne(y.back, y'.back);
    assert y.left.chan.remoteWindow + y.back.flight[0].bytes <= WINDOW_DEFAULT;
    assert Direction(y'.right, y'.left, y'.back, y'.out);
    assert Direction(y'.left, y'.right, y'.out, y'.back);
  }

  lemma DeliverClosing(y: System, y': System, allocOk: bool)
    requires Inv(y) && y' == DoDeliver(y, allocOk)
    requires y.back.flight != [] && (y.back.flight[0].Eof? || y.back.flight[0].Close?)
    ensures Inv(y')
  {
    NothingAfterClose(y.right, y.left, y.back);
    DeliverOne(y.back, y'.back);
    assert Direction(y'.right, y'.left, y'.back, y'.out);
    assert Direction(y'.left, y'.right, y'.out, y'.back);
  }

  lemma {:induction false} DeliverKeeps(y: System, allocOk: bool)
    requires Inv(y)
    ensures Inv(DoDeliver(y, allocOk))
  {
    if y.back.flight != [] {
      match y.back.flight[0]
      case Data(_, _) => DeliverData(y, DoDeliver(y, allocOk), allocOk);
      case WindowAdjust(_) => DeliverAdjust(y, DoDeliver(y, allocOk), allocOk);
      case _ => DeliverClosing(y, DoDeliver(y, allocOk), allocOk);
    }
  }

  lemma CloseKeeps(y: System, sendOk: bool)
    requires Inv(y)
    ensures Inv(DoClose(y, sendOk))
  {
    if y.left.pc.Idle? {
      StartCloseKeeps(y, JustClose, sendOk);
    }
  }

  lemma TransportFailsKeeps(y: System)
    requires Inv(y)
    ensures Inv(DoTransportFails(y))
  {
  }

  lemma StepLeftKeeps(y: System, a: Action)
    requires Inv(y)
    ensures Inv(StepLeft(y, a))
  {
    match a
    case BeginWrite(stream, data) => BeginWriteKeeps(y, stream, data);
    case WritePacket(sendOk) => WritePacketKeeps(y, sendOk);
    case StopWrite => StopWriteKeeps(y);
    case ReadSome(stream, count, sendOk) => ReadKeeps(y, stream, count, sendOk);
    case SendEof(sendOk) => SendEofKeeps(y, sendOk);
    case CloseCall(sendOk) => CloseKeeps(y, sendOk);
    case FreeCall(sendOk) => FreeKeeps(y, sendOk);
    case Flushed(flush, sendOk) => FlushedKeeps(y, flush, sendOk);
    case Deliver(allocOk) => DeliverKeeps(y, allocOk);
    case TransportFails => TransportFailsKeeps(y);
  }

  /** The invariant holds in every state of every run. */
  lemma {:induction false} EveryRun(y: System, steps: seq<(Side, Action)>)
    requires Inv(y)
    ensures Inv(Run(y, steps))
    decreases |steps|
  {
    if steps != [] {
      if steps[0].0.Left? {
        StepLeftKeeps(y, steps[0].1);
      } else {
        StepLeftKeeps(y.Swap(), steps[0].1);
      }
      EveryRun(Step(y, steps[0].0, steps[0].1), steps[1..]);
    }
  }

  lemma StartDirection(s: Offer, r: Offer)
    requires ValidOffer(s) && ValidOffer(r)
    ensures Direction(Opened(s, r), Opened(r, s), Fresh(r), Fresh(s))
  {
  }

  lemma StartHolds(l: Offer, r: Offer)
    requires ValidOffer(l) && ValidOffer(r)
    ensures Inv(Start(l, r))
  {
    StartDirection(l, r);
    StartDirection(r, l);
  }
}
