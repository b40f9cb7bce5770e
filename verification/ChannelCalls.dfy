/**
 * What one call or one incoming packet does to a channel, for every channel and in terms
 * of its fields: which bytes a read takes and with which result, how much credit a growth
 * gives, when a packet is refused, what a close reports.
 */
module ChannelCalls {
  import opened Octets
  import opened ChannelSpec

  // ---- Growing the window ----

  lemma ModIgnoresMultiples(q: nat, n: nat)
    ensures (TWO_32 * q + n) % TWO_32 == n % TWO_32
  {
  }

  lemma WrapsOnce(a: nat, b: nat)
    ensures Wrap32(Wrap32(a) + b) == (a + b) % TWO_32
  {
    ModIgnoresMultiples(a / TWO_32, a % TWO_32 + b);
    assert TWO_32 * (a / TWO_32) + (a % TWO_32 + b) == a + b;
  }

  /** The missing credit, in the 32-bit arithmetic of the source. */
  lemma IncrementExactly(c: Chan)
    ensures
      var used := c.Reserved() % 0x1_0000_0000;
      Increment(c) == if used < 2097152 then 2097152 - used else 0
  {
    WrapsOnce(c.localWindow + |c.stdout|, |c.stderr|);
  }

  /**
   * A growth sends an adjust if and only if half a window or more is missing and the
   * packet can be sent; then window and unread bytes make up the default. It fails if
   * and only if an adjust is called for and cannot be sent, and changes nothing else.
   */
  lemma GrowExactly(c: Chan, sendOk: bool)
    requires c.Reserved() <= WINDOW_DEFAULT
    ensures
      var g := Grow(c, sendOk);
      && g.chan == c.(localWindow := c.localWindow + g.granted)
      && (g.granted > 0 <==> sendOk && c.Reserved() <= 1048576)
      && (g.granted > 0 ==> g.chan.Reserved() == 2097152)
      && (g.ok <==> sendOk || c.Reserved() > 1048576)
  {
  }

  // ---- Reading ----

  /** The read has bytes to take from a channel that can be read. */
  predicate HasBytes(c: Chan, s: Stream, count: nat) {
    count > 0 && c.Buffer(s) != [] && !c.flags.sessionError && c.state != Closed
  }

  /** The bytes a read takes: as many as it asks for, or all there are. */
  lemma ReadTakes(c: Chan, s: Stream, count: nat, sendOk: bool)
    ensures
      var x, b := Read(c, s, count, sendOk), c.Buffer(s);
      && (HasBytes(c, s, count) ==>
            && x.taken != [] && |x.taken| == (if count < |b| then count else |b|)
            && x.taken + x.chan.Buffer(s) == b)
      && (!HasBytes(c, s, count) ==> x.taken == [] && x.chan == c && x.granted == 0)
  {
  }

  /** Whether a read leaves so much of the default unaccounted for that it must send an adjust. */
  predicate MustAdjust(c: Chan, s: Stream, count: nat) {
    var n := if count < |c.Buffer(s)| then count else |c.Buffer(s)|;
    (c.Reserved() - n) % 0x1_0000_0000 <= 1048576
  }

  lemma ReadWithoutBytes(c: Chan, s: Stream, count: nat, sendOk: bool)
    requires !HasBytes(c, s, count)
    ensures
      var result, b := Read(c, s, count, sendOk).result, c.Buffer(s);
      result == if count == 0 then Got([])
                else if c.flags.sessionError || b != [] then Error
                else if c.flags.remoteEof then Got([])
                else Again
  {
  }

  lemma {:induction false} ReadWithBytes(c: Chan, s: Stream, count: nat, sendOk: bool)
    requires HasBytes(c, s, count)
    ensures
      var x := Read(c, s, count, sendOk);
      x.result == if MustAdjust(c, s, count) && !sendOk then Error else Got(x.taken)
  {
    IncrementExactly(AfterTake(c, s, Min(|c.Buffer(s)|, count)));
  }

  /** SSH_AGAIN, an error, or bytes: the result of a read, exactly. */
  lemma {:induction false} ReadResultExactly(c: Chan, s: Stream, count: nat, sendOk: bool)
    ensures
      var x, b := Read(c, s, count, sendOk), c.Buffer(s);
      && (x.result == Again <==> count > 0 && b == [] && !c.flags.remoteEof && !c.flags.sessionError)
      && (x.result == Error
          <==> count > 0 && (c.flags.sessionError
                             || (b != [] && (c.state == Closed || (MustAdjust(c, s, count) && !sendOk)))))
      && (x.result == Got([]) <==> count == 0 || (b == [] && c.flags.remoteEof && !c.flags.sessionError))
      && (x.result != Again && x.result != Error ==> x.result == Got(x.taken))
  {
    ReadTakes(c, s, count, sendOk);
    if HasBytes(c, s, count) {
      ReadWithBytes(c, s, count, sendOk);
    } else {
      ReadWithoutBytes(c, s, count, sendOk);
    }
  }

  lemma TakeLeaves(c: Chan, s: Stream, n: nat)
    requires n <= |c.Buffer(s)|
    ensures
      var d := AfterTake(c, s, n);
      && (forall t :: t != s ==> d.Buffer(t) == c.Buffer(t))
      && d.flags == c.flags && d.remoteWindow == c.remoteWindow && d.remoteMaxPacket == c.remoteMaxPacket
      && d.state == (if c.flags.delayedClose && d.stdout == [] && d.stderr == [] then Closed else c.state)
      && d.localWindow == c.localWindow && d.Reserved() + n == c.Reserved()
  {
  }

  lemma ReadIsTakeAndGrow(c: Chan, s: Stream, count: nat, sendOk: bool)
    requires HasBytes(c, s, count)
    ensures
      var x, g := Read(c, s, count, sendOk), Grow(AfterTake(c, s, Min(|c.Buffer(s)|, count)), sendOk);
      x.chan == g.chan && x.granted == g.granted
  {
  }

  lemma MustAdjustIs(c: Chan, s: Stream, count: nat)
    requires c.Reserved() <= WINDOW_DEFAULT
    ensures MustAdjust(c, s, count) <==> c.Reserved() - Min(|c.Buffer(s)|, count) <= 1048576
  {
  }

  /** What a read that takes bytes leaves: the other stream, the flags, a close it may complete, and the window. */
  lemma ReadLeaves(c: Chan, s: Stream, count: nat, sendOk: bool)
    requires HasBytes(c, s, count) && c.Reserved() <= WINDOW_DEFAULT
    ensures
      var x := Read(c, s, count, sendOk);
      && (forall t :: t != s ==> x.chan.Buffer(t) == c.Buffer(t))
      && x.chan.flags == c.flags && x.chan.remoteWindow == c.remoteWindow && x.chan.remoteMaxPacket == c.remoteMaxPacket
      && (var done := c.flags.delayedClose && x.chan.stdout == [] && x.chan.stderr == [];
          x.chan.state == if done then Closed else c.state)
      && x.chan.localWindow == c.localWindow + x.granted
      && (x.granted > 0 <==> sendOk && MustAdjust(c, s, count))
      && (x.granted > 0 ==> x.chan.Reserved() == 2097152)
  {
    var n := Min(|c.Buffer(s)|, count);
    ReadIsTakeAndGrow(c, s, count, sendOk);
    MustAdjustIs(c, s, count);
    TakeLeaves(c, s, n);
    GrowExactly(AfterTake(c, s, n), sendOk);
  }

  // ---- Receiving ----

  /** Data within the window is stored and taken off it; beyond it, it is refused; without memory its buffer goes. */
  lemma DataExactly(c: Chan, s: Stream, payload: seq<byte>, allocOk: bool)
    requires !c.flags.released
    ensures
      var d := Receive(c, Data(s, payload), allocOk);
      && (forall t :: t != s ==> d.Buffer(t) == c.Buffer(t))
      && d.state == c.state && d.remoteWindow == c.remoteWindow && d.remoteMaxPacket == c.remoteMaxPacket
      && d.flags == c.flags.(fatal := c.flags.fatal || |payload| > c.localWindow)
      && (if |payload| > c.localWindow then
            d.Buffer(s) == c.Buffer(s) && d.localWindow == c.localWindow
          else if allocOk then
            d.Buffer(s) == c.Buffer(s) + payload && d.localWindow + |payload| == c.localWindow
          else
            d.Buffer(s) == [] && d.localWindow == c.localWindow)
  {
  }

  /** Credit is added in 32 bits; EOF is recorded; neither touches anything else. */
  lemma AdjustAndEofExactly(c: Chan, bytes: nat, allocOk: bool)
    requires !c.flags.released
    ensures
      var d := Receive(c, WindowAdjust(bytes), allocOk);
      d.(remoteWindow := c.remoteWindow) == c && d.remoteWindow == (c.remoteWindow + bytes) % 0x1_0000_0000
    ensures
      var d := Receive(c, Eof, allocOk);
      d.(flags := c.flags) == c && d.flags.remoteEof && d.flags.(remoteEof := c.flags.remoteEof) == c.flags
  {
  }

  /** CLOSE closes at once if nothing is unread, else delays the close; it implies EOF and ends a freed channel. */
  lemma CloseReceivedExactly(c: Chan, allocOk: bool)
    requires !c.flags.released
    ensures
      var d, unread := Receive(c, Close, allocOk), c.stdout != [] || c.stderr != [];
      && d.(state := c.state, flags := c.flags) == c
      && d.state == (if unread then c.state else Closed)
      && d.flags == c.flags.(remoteEof := true, closedRemote := true,
                             delayedClose := c.flags.delayedClose || unread, released := c.flags.freedLocal)
  {
  }

  /** A channel that is deallocated takes no packet of any kind. */
  lemma ReleasedRefuses(c: Chan, p: Packet, allocOk: bool)
    requires c.flags.released
    ensures Receive(c, p, allocOk) == c.(flags := c.flags.(fatal := true))
  {
  }

  // ---- Closing ----

  /**
   * The result of a close: SSH_OK if CLOSE was out before, else that of the step it ended
   * at. The outcome of sending CLOSE itself is not part of it.
   */
  lemma CloseResultExactly(c: Chan, e: CloseEnv)
    ensures
      var rc, f := CloseOf(c, e).rc, c.flags;
      var pastEof := f.localEof || (e.eofOk && e.eofFlush == RcOk);
      && (rc == RcOk <==> f.closedLocal || (pastEof && e.closeFlush == RcOk))
      && (rc == RcAgain
          <==> !f.closedLocal && (if pastEof then e.closeFlush == RcAgain else e.eofOk && e.eofFlush == RcAgain))
  {
  }

  /** So a close may report SSH_OK although its CLOSE was not sent: exactly when that send alone fails. */
  lemma OkWithoutClose(c: Chan, e: CloseEnv)
    requires !c.flags.closedLocal
    ensures CloseOf(c, e).rc == RcOk && Close !in CloseOf(c, e).packets
            <==> (c.flags.localEof || (e.eofOk && e.eofFlush == RcOk)) && e.closeFlush == RcOk && !e.closeOk
  {
  }

  /**
   * A free closes first if the session is alive and the channel is open, or closed by the
   * peer alone; then it marks the channel freed, and deallocates it if CLOSE was received
   * or it was never bound.
   */
  lemma FreeExactly(c: Chan, alive: bool, bound: bool, e: CloseEnv)
    ensures
      var closes := alive && (c.state == Open || (c.state == Closed && c.flags.closedRemote && !c.flags.closedLocal));
      var d, x := FreeOf(c, alive, bound, e), if closes then CloseOf(c, e) else Closing(c, [], RcOk);
      && d.packets == x.packets && d.chan.(flags := x.chan.flags) == x.chan
      && d.chan.flags == x.chan.flags.(freedLocal := true,
                                       released := x.chan.flags.released || x.chan.flags.closedRemote || !bound)
  {
  }

  /** The packets a close sends. */
  lemma ClosePacketsExactly(c: Chan, e: CloseEnv)
    ensures
      var f := c.flags;
      var pastEof := f.localEof || (e.eofOk && e.eofFlush == RcOk);
      && (Eof in CloseOf(c, e).packets <==> !f.closedLocal && !f.localEof && e.eofOk)
      && (Close in CloseOf(c, e).packets <==> !f.closedLocal && pastEof && e.closeOk)
  {
  }
}
