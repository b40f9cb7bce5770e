/**
 * One end of an SSH channel (sections 5.1 to 5.4 of RFC 4254) as a value, and
 * what each handler of channels.c does to its fields. Channel.dfy proves the
 * mutable channel against these functions; ChannelPair.dfy runs two ends against
 * each other.
 */
module ChannelSpec {
  import opened Octets

  const CHANNEL_MAX_PACKET: nat := 32768
  const WINDOW_DEFAULT: nat := 64 * CHANNEL_MAX_PACKET
  const HALF_WINDOW: nat := WINDOW_DEFAULT / 2

  datatype Stream = Stdout | Stderr

  /** The packets that name an open channel. Stderr data travels as EXTENDED_DATA. */
  datatype Packet =
    | Data(stream: Stream, payload: seq<byte>)
    | WindowAdjust(bytes: nat)
    | Eof
    | Close

  datatype ChannelState = NotOpen | Opening | OpenDenied | Open | Closed

  datatype Flags = Flags(
    localEof: bool,
    remoteEof: bool,
    delayedClose: bool,
    closedLocal: bool,
    closedRemote: bool,
    freedLocal: bool,
    released: bool,      // ssh_channel_do_free has run: the id no longer resolves
    sessionError: bool,  // the transport is in SSH_SESSION_STATE_ERROR
    fatal: bool          // an incoming packet was refused with SSH_FATAL
  )

  datatype Chan = Chan(
    state: ChannelState,
    localWindow: nat,
    remoteWindow: nat,
    remoteMaxPacket: nat,
    stdout: seq<byte>,
    stderr: seq<byte>,
    flags: Flags
  ) {
    function Buffer(s: Stream): seq<byte> {
      if s.Stdout? then stdout else stderr
    }

    function WithBuffer(s: Stream, content: seq<byte>): Chan {
      if s.Stdout? then this.(stdout := content) else this.(stderr := content)
    }

    predicate HasUnread() {
      |stdout| > 0 || |stderr| > 0
    }

    /** Bytes the peer may still send plus bytes it sent that nobody has read. */
    function Reserved(): nat {
      localWindow + |stdout| + |stderr|
    }
  }

  // ---- Sending ----

  predicate CanWrite(c: Chan) {
    !c.flags.localEof && c.state.Open? && !c.flags.delayedClose && !c.flags.sessionError
  }

  /** The number of payload bytes the next data packet of a write carries. */
  function PacketLength(c: Chan, remaining: nat): (n: nat)
    ensures n <= remaining && n <= c.remoteWindow && n <= c.remoteMaxPacket
    ensures remaining > 0 && c.remoteWindow > 0 && c.remoteMaxPacket > 0 ==> n > 0
  {
    var effective := if c.remoteWindow < remaining then Min(remaining, c.remoteWindow) else remaining;
    Min(effective, c.remoteMaxPacket)
  }

  function AfterDataSent(c: Chan, n: nat): Chan
    requires n <= c.remoteWindow
  {
    c.(remoteWindow := c.remoteWindow - n)
  }

  /** The result codes SSH_OK, SSH_AGAIN and SSH_ERROR of a flush or a call. */
  datatype Rc = RcOk | RcAgain | RcError

  /** An EOF whose flush failed is out, but not recorded. */
  function AfterEofFlushed(c: Chan, flush: Rc): Chan {
    if flush.RcError? then c else c.(flags := c.flags.(localEof := true))
  }

  function AfterCloseSent(c: Chan): Chan {
    c.(state := Closed, flags := c.flags.(closedLocal := true))
  }

  /** Whether ssh_channel_free sends a CLOSE first (on a live session). */
  predicate FreeSendsClose(c: Chan) {
    match c.state
    case Open => true
    case Closed => c.flags.closedRemote && !c.flags.closedLocal
    case _ => false
  }

  /** The tail of ssh_channel_free on a bound channel. */
  function AfterFree(c: Chan): Chan {
    c.(flags := c.flags.(freedLocal := true, released := c.flags.released || c.flags.closedRemote))
  }

  // ---- Receiving ----

  function RcvWindowAdjust(c: Chan, bytes: nat): Chan {
    c.(remoteWindow := Wrap32(c.remoteWindow + bytes))
  }

  /** When memory runs out, channel_default_bufferize drops the packet and the whole buffer. */
  function RcvData(c: Chan, stream: Stream, payload: seq<byte>, allocOk: bool): Chan {
    if |payload| > c.localWindow then
      c.(flags := c.flags.(fatal := true))
    else if !allocOk then
      c.WithBuffer(stream, [])
    else
      c.WithBuffer(stream, c.Buffer(stream) + payload).(localWindow := c.localWindow - |payload|)
  }

  function RcvEof(c: Chan): Chan {
    c.(flags := c.flags.(remoteEof := true))
  }

  function RcvClose(c: Chan): Chan {
    var unread := c.HasUnread();
    c.(state := if unread then c.state else Closed,
       flags := c.flags.(delayedClose := c.flags.delayedClose || unread, remoteEof := true, closedRemote := true,
                         released := c.flags.released || c.flags.freedLocal))
  }

  /** Dispatch of one incoming packet; a packet for a released channel is refused. */
  function Receive(c: Chan, p: Packet, allocOk: bool): Chan {
    if c.flags.released then
      c.(flags := c.flags.(fatal := true))
    else
      match p
      case Data(stream, payload) => RcvData(c, stream, payload, allocOk)
      case WindowAdjust(bytes) => RcvWindowAdjust(c, bytes)
      case Eof => RcvEof(c)
      case Close => RcvClose(c)
  }

  /** A packet that arrives while a call handles packets, and whether memory is left for its data. */
  datatype Arrival = Arrival(packet: Packet, allocOk: bool)

  function ReceiveAll(c: Chan, arrivals: seq<Arrival>): Chan {
    if arrivals == [] then c
    else
      var k := |arrivals| - 1;
      Receive(ReceiveAll(c, arrivals[..k]), arrivals[k].packet, arrivals[k].allocOk)
  }

  // ---- Closing ----

  /** What is decided outside one call of ssh_channel_close: two sends, two flushes and what arrives in each. */
  datatype CloseEnv = CloseEnv(
    eofOk: bool,
    eofFlush: Rc,
    first: seq<Arrival>,
    closeOk: bool,
    closeFlush: Rc,
    second: seq<Arrival>
  )

  /** The channel after a call that closes, the packets the call sent, and its result. */
  datatype Closing = Closing(chan: Chan, packets: seq<Packet>, rc: Rc)

  /** ssh_channel_close */
  function CloseOf(c: Chan, e: CloseEnv): Closing {
    if c.flags.closedLocal then
      Closing(c, [], RcOk)
    else if c.flags.localEof then
      CloseAfterEof(c, [], e)
    else if !e.eofOk then
      Closing(c, [], RcError)
    else
      var eof := AfterEofFlushed(ReceiveAll(c, e.first), e.eofFlush);
      if e.eofFlush.RcOk? then CloseAfterEof(eof, [Eof], e) else Closing(eof, [Eof], e.eofFlush)
  }

  function CloseAfterEof(c: Chan, before: seq<Packet>, e: CloseEnv): Closing {
    Closing(ReceiveAll(if e.closeOk then AfterCloseSent(c) else c, e.second),
            before + (if e.closeOk then [Close] else []), e.closeFlush)
  }

  /**
   * ssh_channel_free. A dead session gets no packets; a channel that is not bound, its open
   * unanswered or refused, is deallocated at once.
   */
  function FreeOf(c: Chan, alive: bool, bound: bool, e: CloseEnv): Closing {
    var x := if alive && FreeSendsClose(c) then CloseOf(c, e) else Closing(c, [], RcOk);
    var freed := AfterFree(x.chan);
    x.(chan := if bound then freed else freed.(flags := freed.flags.(released := true)))
  }

  // ---- Reading ----

  function Increment(c: Chan): nat {
    var used := Wrap32(Wrap32(c.localWindow + |c.stdout|) + |c.stderr|);
    if WINDOW_DEFAULT > used then WINDOW_DEFAULT - used else 0
  }

  /** `granted` is the credit of the window adjust that was sent, 0 when none was. */
  datatype Growth = Growth(chan: Chan, granted: nat, ok: bool)

  function Grow(c: Chan, sendOk: bool): Growth {
    var increment := Increment(c);
    if increment < HALF_WINDOW then
      Growth(c, 0, true)
    else if !sendOk then
      Growth(c, 0, false)
    else
      Growth(c.(localWindow := Wrap32(c.localWindow + increment)), increment, true)
  }

  /** The packets a read or a window growth sends. */
  function AdjustPackets(granted: nat): seq<Packet> {
    if granted == 0 then [] else [WindowAdjust(granted)]
  }

  datatype ReadResult = Again | Error | Got(bytes: seq<byte>)

  /** `taken` is what left the buffer, even when a failed window adjust hides it from the caller. */
  datatype Reading = Reading(chan: Chan, granted: nat, result: ReadResult, taken: seq<byte>) {
    /** What the caller gets. */
    function Returned(): seq<byte> {
      if result.Got? then result.bytes else []
    }

    /** Bytes left the buffer but the read reports an error: its window adjust was not sent. */
    predicate AdjustFailed() {
      result.Error? && taken != []
    }
  }

  predicate ReadReady(c: Chan, stream: Stream) {
    |c.Buffer(stream)| >= 1 || c.flags.remoteEof || c.flags.sessionError
  }

  function AfterTake(c: Chan, stream: Stream, n: nat): Chan
    requires n <= |c.Buffer(stream)|
  {
    var c1 := c.WithBuffer(stream, c.Buffer(stream)[n..]);
    if c1.flags.delayedClose && !c1.HasUnread() then c1.(state := Closed) else c1
  }

  /** ssh_channel_read_timeout, once its wait for data has ended. */
  function Read(c: Chan, stream: Stream, count: nat, sendOk: bool): Reading {
    var len := |c.Buffer(stream)|;
    if count == 0 then
      Reading(c, 0, Got([]), [])
    else if !ReadReady(c, stream) then
      Reading(c, 0, Again, [])
    else if c.flags.sessionError then
      Reading(c, 0, Error, [])
    else if c.flags.remoteEof && len == 0 then
      Reading(c, 0, Got([]), [])
    else if c.state.Closed? then
      Reading(c, 0, Error, [])
    else
      var n := Min(len, count);
      var taken := c.Buffer(stream)[..n];
      var g := Grow(AfterTake(c, stream, n), sendOk);
      Reading(g.chan, g.granted, if g.ok then Got(taken) else Error, taken)
  }
}
