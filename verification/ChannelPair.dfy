/**
 * Two ends of one channel joined by two reliable FIFO queues. Every step of
 * either end is one action; a run is any list of actions by either side, and an
 * action that is not enabled changes nothing, so every interleaving is a run.
 */
module ChannelPair {
  import opened Octets
  import opened ChannelSpec

  /** Why a call is flushing: to return after EOF, after CLOSE, or to free the channel. */
  datatype Goal = JustEof | JustClose | ThenFree

  /** Where the (single) user thread of an end stands between two atomic steps. */
  datatype Pc =
    | Idle
    | Writing(stream: Stream, rest: seq<byte>)
    | FlushEof(goal: Goal)
    | FlushClose(goal: Goal)
    | Gone

  /**
   * One end. `freeFailed`: the call that freed the channel could not send its EOF or
   * CLOSE, or its EOF flush did not succeed. `eofUnrecorded`: an EOF went out whose
   * flush failed.
   */
  datatype Peer = Peer(chan: Chan, pc: Pc, freeFailed: bool, eofUnrecorded: bool)

  /**
   * What the sender's writes put into a direction, what the receiver's reads took out of
   * its buffers, and what those reads returned to their callers.
   */
  datatype History = History(
    wroteOut: seq<byte>,
    wroteErr: seq<byte>,
    tookOut: seq<byte>,
    tookErr: seq<byte>,
    returnedOut: seq<byte>,
    returnedErr: seq<byte>
  )

  /** The receiver's account of a direction. */
  datatype Ledger = Ledger(
    initialWindow: nat,
    granted: nat,     // sum of all window adjusts the receiver sent
    adjusts: nat,     // how many of them
    lost: nat,        // payload of packets dropped for want of memory
    discarded: nat,   // bytes of the buffers emptied on those occasions
    dropped: bool,
    growFailed: bool,
    releases: nat     // how often the receiver's channel was deallocated
  )

  /** One direction: what was delivered, what is in flight, and its history. */
  datatype Flow = Flow(received: seq<Packet>, flight: seq<Packet>, history: History, ledger: Ledger) {
    function Sent(): seq<Packet> { received + flight }
    function Wrote(s: Stream): seq<byte> { if s.Stdout? then history.wroteOut else history.wroteErr }
    function Took(s: Stream): seq<byte> { if s.Stdout? then history.tookOut else history.tookErr }
    function Returned(s: Stream): seq<byte> { if s.Stdout? then history.returnedOut else history.returnedErr }
    function Consumed(): nat { |history.tookOut| + |history.tookErr| }
    function Send(ps: seq<Packet>): Flow { this.(flight := flight + ps) }

    function AddWrote(s: Stream, bytes: seq<byte>): Flow {
      this.(history := if s.Stdout? then history.(wroteOut := history.wroteOut + bytes)
                       else history.(wroteErr := history.wroteErr + bytes))
    }

    function AddTook(s: Stream, bytes: seq<byte>): Flow {
      this.(history := if s.Stdout? then history.(tookOut := history.tookOut + bytes)
                       else history.(tookErr := history.tookErr + bytes))
    }

    function AddReturned(s: Stream, bytes: seq<byte>): Flow {
      this.(history := if s.Stdout? then history.(returnedOut := history.returnedOut + bytes)
                       else history.(returnedErr := history.returnedErr + bytes))
    }
  }

  /** `out` carries left to right, `back` right to left. */
  datatype System = System(left: Peer, right: Peer, out: Flow, back: Flow) {
    function Swap(): System { System(right, left, back, out) }
  }

  datatype Action =
    | BeginWrite(stream: Stream, data: seq<byte>)
    | WritePacket(sendOk: bool)
    | StopWrite
    | ReadSome(stream: Stream, count: nat, sendOk: bool)
    | SendEof(sendOk: bool)
    | CloseCall(sendOk: bool)
    | FreeCall(sendOk: bool)
    | Flushed(flush: Rc, sendOk: bool)
    | Deliver(allocOk: bool)
    | TransportFails

  datatype Side = Left | Right

  // ---- What a queue of packets is worth ----

  /** Payload bytes carried by the packets of a queue. */
  function Load(q: seq<Packet>): nat {
    if q == [] then 0 else (if q[0].Data? then |q[0].payload| else 0) + Load(q[1..])
  }

  /** Window credit carried by the packets of a queue. */
  function Credit(q: seq<Packet>): nat {
    if q == [] then 0 else (if q[0].WindowAdjust? then q[0].bytes else 0) + Credit(q[1..])
  }

  /** The bytes of one stream carried by the packets of a queue, in order. */
  function PayloadOf(q: seq<Packet>, s: Stream): seq<byte> {
    if q == [] then []
    else (if q[0].Data? && q[0].stream == s then q[0].payload else []) + PayloadOf(q[1..], s)
  }

  // ---- The steps of the left end ----

  function DoBeginWrite(y: System, stream: Stream, data: seq<byte>): System {
    if y.left.pc.Idle? && CanWrite(y.left.chan) then y.(left := y.left.(pc := Writing(stream, data))) else y
  }

  function DoWritePacket(y: System, sendOk: bool): System {
    var p := y.left;
    // A wait during which the channel or the session went down ends the write.
    if !p.pc.Writing? || p.pc.rest == [] || p.chan.remoteWindow == 0
       || p.chan.state.Closed? || p.chan.flags.sessionError then
      y
    else if !sendOk then
      y.(left := p.(pc := Idle))
    else
      var n := PacketLength(p.chan, |p.pc.rest|);
      var bytes := p.pc.rest[..n];
      y.(left := p.(chan := AfterDataSent(p.chan, n), pc := Writing(p.pc.stream, p.pc.rest[n..])),
         out := y.out.Send([Data(p.pc.stream, bytes)]).AddWrote(p.pc.stream, bytes))
  }

  function DoStopWrite(y: System): System {
    if y.left.pc.Writing? then y.(left := y.left.(pc := Idle)) else y
  }

  function DoRead(y: System, stream: Stream, count: nat, sendOk: bool): System {
    if !y.left.pc.Idle? then y else
    var r := Read(y.left.chan, stream, count, sendOk);
    y.(left := y.left.(chan := r.chan),
       out := y.out.Send(AdjustPackets(r.granted)),
       back := AfterRead(y.back, stream, r))
  }

  function AfterRead(f: Flow, stream: Stream, r: Reading): Flow {
    f.AddTook(stream, r.taken).AddReturned(stream, r.Returned()).(
      ledger := AfterGrant(f.ledger, r.granted, r.AdjustFailed()))
  }

  function AfterGrant(l: Ledger, granted: nat, failed: bool): Ledger {
    l.(granted := l.granted + granted, adjusts := l.adjusts + |AdjustPackets(granted)|,
       growFailed := l.growFailed || failed)
  }

  function StartClose(y: System, goal: Goal, sendOk: bool): System {
    var p := y.left;
    if p.chan.flags.closedLocal then
      AfterGoal(y, goal)
    else if p.chan.flags.localEof then
      SendClose(y, goal, sendOk)
    else if sendOk then
      y.(left := p.(pc := FlushEof(goal)), out := y.out.Send([Eof]))
    else
      GiveUp(y, goal)
  }

  /** The flush follows even a CLOSE that could not be sent. */
  function SendClose(y: System, goal: Goal, sendOk: bool): System {
    if sendOk then
      y.(left := y.left.(chan := AfterCloseSent(y.left.chan), pc := FlushClose(goal)), out := y.out.Send([Close]))
    else
      y.(left := y.left.(pc := FlushClose(goal)))
  }

  /** The close fell short; a free goes on all the same. */
  function GiveUp(y: System, goal: Goal): System {
    AfterGoal(y.(left := y.left.(freeFailed := y.left.freeFailed || goal.ThenFree?)), goal)
  }

  /** Return to the user, or run the tail of ssh_channel_free. */
  function AfterGoal(y: System, goal: Goal): System {
    if goal.ThenFree? then
      var c := AfterFree(y.left.chan);
      y.(left := y.left.(chan := c, pc := Gone), back := y.back.(ledger := AfterRelease(y.back.ledger, y.left.chan, c)))
    else
      y.(left := y.left.(pc := Idle))
  }

  /** Count a run of ssh_channel_do_free. */
  function AfterRelease(l: Ledger, before: Chan, after: Chan): Ledger {
    if after.flags.released && !before.flags.released then l.(releases := l.releases + 1) else l
  }

  function DoSendEof(y: System, sendOk: bool): System {
    var p := y.left;
    if !p.pc.Idle? || p.chan.flags.localEof then y
    else if sendOk then y.(left := p.(pc := FlushEof(JustEof)), out := y.out.Send([Eof]))
    else y
  }

  function DoClose(y: System, sendOk: bool): System {
    if y.left.pc.Idle? then StartClose(y, JustClose, sendOk) else y
  }

  function DoFree(y: System, sendOk: bool): System {
    if !y.left.pc.Idle? then y
    else if FreeSendsClose(y.left.chan) then StartClose(y, ThenFree, sendOk)
    else AfterGoal(y, ThenFree)
  }

  /** A flush ends; an EOF flush that did not succeed ends the close before its CLOSE. */
  function DoFlushed(y: System, flush: Rc, sendOk: bool): System {
    match y.left.pc
    case FlushEof(goal) =>
      var y1 := y.(left := EofFlushEnds(y.left, flush));
      if goal.JustEof? then y1
      else if flush.RcOk? then SendClose(y1, goal, sendOk)
      else GiveUp(y1, goal)
    case FlushClose(goal) => if y.left.chan.flags.closedLocal then AfterGoal(y, goal) else GiveUp(y, goal)
    case _ => y
  }

  function EofFlushEnds(p: Peer, flush: Rc): Peer {
    p.(chan := AfterEofFlushed(p.chan, flush), pc := Idle, eofUnrecorded := p.eofUnrecorded || flush.RcError?)
  }

  function DoDeliver(y: System, allocOk: bool): System {
    if y.back.flight == [] then y else
    var p := y.back.flight[0];
    var before := y.left.chan;
    var after := Receive(before, p, allocOk);
    var drops := p.Data? && !allocOk && !before.flags.released && |p.payload| <= before.localWindow;
    y.(left := y.left.(chan := after),
       back := y.back.(
         received := y.back.received + [p],
         flight := y.back.flight[1..],
         ledger := AfterRelease(
           if drops then AfterDrop(y.back.ledger, p.payload, before.Buffer(p.stream)) else y.back.ledger,
           before,
           after)))
  }

  function AfterDrop(l: Ledger, payload: seq<byte>, buffer: seq<byte>): Ledger {
    l.(lost := l.lost + |payload|, discarded := l.discarded + |buffer|, dropped := true)
  }

  function StepLeft(y: System, a: Action): System {
    match a
    case BeginWrite(stream, data) => DoBeginWrite(y, stream, data)
    case WritePacket(sendOk) => DoWritePacket(y, sendOk)
    case StopWrite => DoStopWrite(y)
    case ReadSome(stream, count, sendOk) => DoRead(y, stream, count, sendOk)
    case SendEof(sendOk) => DoSendEof(y, sendOk)
    case CloseCall(sendOk) => DoClose(y, sendOk)
    case FreeCall(sendOk) => DoFree(y, sendOk)
    case Flushed(flush, sendOk) => DoFlushed(y, flush, sendOk)
    case Deliver(allocOk) => DoDeliver(y, allocOk)
    case TransportFails => DoTransportFails(y)
  }

  function DoTransportFails(y: System): System {
    y.(left := y.left.(chan := y.left.chan.(flags := y.left.chan.flags.(sessionError := true))))
  }

  function Step(y: System, side: Side, a: Action): System {
    if side.Left? then StepLeft(y, a) else StepLeft(y.Swap(), a).Swap()
  }

  function Run(y: System, steps: seq<(Side, Action)>): System
    decreases |steps|
  {
    if steps == [] then y
    else Run(Step(y, steps[0].0, steps[0].1), steps[1..])
  }

  /** A freshly opened channel: each end advertised its window and packet size to the other. */
  datatype Offer = Offer(window: nat, maxPacket: nat)

  predicate ValidOffer(o: Offer) {
    0 < o.window <= WINDOW_DEFAULT && 0 < o.maxPacket < TWO_32
  }

  function Opened(own: Offer, other: Offer): Peer {
    Peer(Chan(Open, own.window, other.window, other.maxPacket, [], [],
              Flags(false, false, false, false, false, false, false, false, false)), Idle, false, false)
  }

  function Fresh(receiver: Offer): Flow {
    Flow([], [], History([], [], [], [], [], []), Ledger(receiver.window, 0, 0, 0, 0, false, false, 0))
  }

  function Start(l: Offer, r: Offer): System {
    System(Opened(l, r), Opened(r, l), Fresh(r), Fresh(l))
  }
}
