/**
 * channel_write_common (channels.c): cutting one write into packets while the peer's
 * window closes and opens again under whatever arrives during the waits.
 */
module ChannelWrite {
  import opened Octets
  import opened ChannelSpec
  import opened Channels
  import ChannelPair
  import ChannelInvariants

  /** What one wait for a window brings, and whether it ended with SSH_ERROR or a broken session. */
  datatype Wait = Wait(arrivals: seq<Arrival>, failed: bool)

  /** The packets of one write in the order they were sent and received. */
  datatype Entry = Emitted(packet: Packet) | Arrived(packet: Packet)

  function PacketsOf(t: seq<Entry>): seq<Packet> {
    if t == [] then []
    else
      var k := |t| - 1;
      PacketsOf(t[..k]) + if t[k].Emitted? then [t[k].packet] else []
  }

  /** What arrived, in order. */
  function ArrivedOf(t: seq<Entry>): seq<Packet> {
    if t == [] then []
    else
      var k := |t| - 1;
      ArrivedOf(t[..k]) + if t[k].Arrived? then [t[k].packet] else []
  }

  function PacketsIn(arrivals: seq<Arrival>): seq<Packet> {
    seq(|arrivals|, i requires 0 <= i < |arrivals| => arrivals[i].packet)
  }

  /** What the first `n` waits bring; after the last of `waits` they time out. */
  function WaitPackets(waits: seq<Wait>, n: nat): seq<Packet> {
    if n == 0 then []
    else WaitPackets(waits, n - 1) + if n - 1 < |waits| then PacketsIn(waits[n - 1].arrivals) else []
  }

  /** The stream bytes emitted. */
  function Emission(t: seq<Entry>, stream: Stream): seq<byte> {
    ChannelPair.PayloadOf(PacketsOf(t), stream)
  }

  /** The peer's window after the packets of `t`, from `w`. */
  function WindowAfter(w: nat, t: seq<Entry>): nat {
    if t == [] then w
    else
      var k := |t| - 1;
      var before := WindowAfter(w, t[..k]);
      match t[k]
      case Emitted(Data(_, payload)) => if |payload| <= before then before - |payload| else 0
      case Arrived(WindowAdjust(bytes)) => Wrap32(before + bytes)
      case _ => before
  }

  /**
   * Every packet sent carries as many of the bytes left as the window at that moment and
   * the packet size allow, which is at least one unless the packet size is 0.
   */
  ghost predicate WellCut(t: seq<Entry>, w: nat, maxPacket: nat, stream: Stream, total: nat) {
    forall i :: 0 <= i < |t| && t[i].Emitted? ==> CutAt(t, i, w, maxPacket, stream, total)
  }

  ghost predicate CutAt(t: seq<Entry>, i: nat, w: nat, maxPacket: nat, stream: Stream, total: nat)
    requires i < |t| && t[i].Emitted?
  {
    var p := t[i].packet;
    var left := total - |Emission(t[..i], stream)|;
    && p.Data? && p.stream == stream
    && (maxPacket > 0 ==> 1 <= |p.payload|)
    && left >= 0 && |p.payload| == Min(Min(left, WindowAfter(w, t[..i])), maxPacket)
  }

  // ---- Extending a trace ----

  function Arrivals(seen: seq<Arrival>): seq<Entry> {
    seq(|seen|, i requires 0 <= i < |seen| => Arrived(seen[i].packet))
  }

  lemma OneMore(t: seq<Entry>, e: Entry)
    ensures (t + [e])[..|t|] == t
    ensures PacketsOf(t + [e]) == PacketsOf(t) + if e.Emitted? then [e.packet] else []
    ensures ArrivedOf(t + [e]) == ArrivedOf(t) + if e.Arrived? then [e.packet] else []
  {
    assert (t + [e])[..|t|] == t;
  }

  lemma EmissionOneMore(t: seq<Entry>, e: Entry, stream: Stream)
    ensures
      var carries := e.Emitted? && e.packet.Data? && e.packet.stream == stream;
      Emission(t + [e], stream) == Emission(t, stream) + if carries then e.packet.payload else []
  {
    OneMore(t, e);
    assert Emission(t, stream) + [] == Emission(t, stream) && PacketsOf(t) + [] == PacketsOf(t);
    if e.Emitted? {
      ChannelInvariants.QueueAppend(PacketsOf(t), [e.packet]);
      ChannelInvariants.QueueOne(e.packet);
    }
  }

  lemma WellCutOneMore(t: seq<Entry>, e: Entry, w: nat, maxPacket: nat, stream: Stream, total: nat)
    requires WellCut(t, w, maxPacket, stream, total)
    requires e.Emitted? ==> CutAt(t + [e], |t|, w, maxPacket, stream, total)
    ensures WellCut(t + [e], w, maxPacket, stream, total)
  {
    var t' := t + [e];
    forall i | 0 <= i < |t'| && t'[i].Emitted? ensures CutAt(t', i, w, maxPacket, stream, total) {
      if i < |t| {
        assert t'[..i] == t[..i];
        assert CutAt(t, i, w, maxPacket, stream, total);
      }
    }
  }

  /** What a trace says about a write of `total` bytes so far, given how the channel stood before. */
  ghost predicate Describes(t: seq<Entry>, c0: Chan, c: Chan, stream: Stream, data: seq<byte>, done: nat) {
    && done <= |data| && Emission(t, stream) == data[..done]
    && WellCut(t, c0.remoteWindow, c0.remoteMaxPacket, stream, |data|)
    && c.remoteWindow == WindowAfter(c0.remoteWindow, t)
    && c.remoteMaxPacket == c0.remoteMaxPacket
    && !c.flags.freedLocal && !c.flags.released
  }

  lemma ArrivalKeeps(t: seq<Entry>, c0: Chan, c: Chan, stream: Stream, data: seq<byte>, done: nat, p: Packet,
                     allocOk: bool)
    requires Describes(t, c0, c, stream, data, done)
    ensures Describes(t + [Arrived(p)], c0, Receive(c, p, allocOk), stream, data, done)
    ensures PacketsOf(t + [Arrived(p)]) == PacketsOf(t) && ArrivedOf(t + [Arrived(p)]) == ArrivedOf(t) + [p]
  {
    OneMore(t, Arrived(p));
    assert PacketsOf(t) + [] == PacketsOf(t);
    WellCutOneMore(t, Arrived(p), c0.remoteWindow, c0.remoteMaxPacket, stream, |data|);
  }

  lemma {:induction false} ArrivalsKeep(t: seq<Entry>, c0: Chan, c: Chan, stream: Stream, data: seq<byte>, done: nat,
                                        seen: seq<Arrival>)
    requires Describes(t, c0, c, stream, data, done)
    ensures Describes(t + Arrivals(seen), c0, ReceiveAll(c, seen), stream, data, done)
    ensures PacketsOf(t + Arrivals(seen)) == PacketsOf(t)
    ensures ArrivedOf(t + Arrivals(seen)) == ArrivedOf(t) + PacketsIn(seen)
  {
    if seen == [] {
      assert t + Arrivals(seen) == t && ArrivedOf(t) + [] == ArrivedOf(t);
    } else {
      var k := |seen| - 1;
      ArrivalsKeep(t, c0, c, stream, data, done, seen[..k]);
      ArrivalKeeps(t + Arrivals(seen[..k]), c0, ReceiveAll(c, seen[..k]), stream, data, done, seen[k].packet,
                   seen[k].allocOk);
      assert t + Arrivals(seen) == (t + Arrivals(seen[..k])) + [Arrived(seen[k].packet)];
      assert PacketsIn(seen) == PacketsIn(seen[..k]) + [seen[k].packet];
      assert ArrivedOf(t) + PacketsIn(seen) == (ArrivedOf(t) + PacketsIn(seen[..k])) + [seen[k].packet];
    }
  }

  /** With a window left, a turn sends a byte or more if and only if the packet size is not 0; else nothing changes. */
  lemma EmissionKeeps(t: seq<Entry>, c0: Chan, c: Chan, stream: Stream, data: seq<byte>, done: nat, n: nat)
    requires Describes(t, c0, c, stream, data, done) && done < |data| && c.remoteWindow > 0
    requires n == PacketLength(c, |data| - done)
    ensures
      var p := Data(stream, data[done..done + n]);
      && (n >= 1 <==> c.remoteMaxPacket > 0)
      && (n == 0 ==> AfterDataSent(c, n) == c && p == Data(stream, []))
      && Describes(t + [Emitted(p)], c0, AfterDataSent(c, n), stream, data, done + n)
      && PacketsOf(t + [Emitted(p)]) == PacketsOf(t) + [p]
      && ArrivedOf(t + [Emitted(p)]) == ArrivedOf(t)
  {
    var p := Data(stream, data[done..done + n]);
    OneMore(t, Emitted(p));
    EmissionOneMore(t, Emitted(p), stream);
    assert ArrivedOf(t) + [] == ArrivedOf(t);
    assert data[..done] + data[done..done + n] == data[..done + n];
    WellCutOneMore(t, Emitted(p), c0.remoteWindow, c0.remoteMaxPacket, stream, |data|);
  }

  // ---- The loop ----

  /** Pack one data packet and hand it to the transport. */
  method SendData(channel: Channel, p: Packet)
    requires channel.Valid() && p.Data? && |p.payload| <= channel.remoteWindow
    modifies channel`sent, channel`remoteWindow
    ensures channel.Valid() && channel.sent == old(channel.sent) + [p]
    ensures channel.Model() == AfterDataSent(old(channel.Model()), |p.payload|)
  {
    channel.sent := channel.sent + [p];
    channel.remoteWindow := channel.remoteWindow - |p.payload|;
  }

  /** One wait for a window. */
  method WaitForWindow(channel: Channel, w: Wait, ghost trace: seq<Entry>, ghost c0: Chan, ghost stream: Stream,
                       ghost data: seq<byte>, ghost done: nat)
    returns (ghost longer: seq<Entry>)
    requires channel.Valid() && WellFormed(w.arrivals)
    requires Describes(trace, c0, channel.Model(), stream, data, done)
    modifies channel.Frame()
    ensures channel.Valid() && fresh(channel.Frame() - old(channel.Frame())) && channel.sent == old(channel.sent)
    ensures Describes(longer, c0, channel.Model(), stream, data, done) && PacketsOf(longer) == PacketsOf(trace)
    ensures ArrivedOf(longer) == ArrivedOf(trace) + PacketsIn(w.arrivals)
  {
    ghost var c := channel.Model();
    ghost var seen := channel.HandlePackets(w.arrivals);
    ArrivalsKeep(trace, c0, c, stream, data, done, seen);
    longer := trace + Arrivals(seen);
    assert PacketsIn(seen) == PacketsIn(w.arrivals);
  }

  /** One packet of at most `len` bytes. */
  method SendNext(channel: Channel, len: nat, ghost trace: seq<Entry>, ghost c0: Chan, stream: Stream, data: seq<byte>,
                  ghost done: nat)
    returns (effectivelen: nat, ghost longer: seq<Entry>, ghost sent: Packet)
    requires channel.Valid() && 0 < len <= |data| && done == |data| - len && channel.remoteWindow > 0
    requires Describes(trace, c0, channel.Model(), stream, data, done)
    modifies channel`sent, channel`remoteWindow
    ensures channel.Valid() && effectivelen <= len && (effectivelen > 0 <==> channel.remoteMaxPacket > 0)
    ensures channel.remoteWindow == old(channel.remoteWindow) - effectivelen
    ensures Describes(longer, c0, channel.Model(), stream, data, done + effectivelen)
    ensures PacketsOf(longer) == PacketsOf(trace) + [sent] && channel.sent == old(channel.sent) + [sent]
    ensures ArrivedOf(longer) == ArrivedOf(trace)
  {
    var from := |data| - len;
    effectivelen := if channel.remoteWindow < len then Min(len, channel.remoteWindow) else len;
    effectivelen := Min(effectivelen, channel.remoteMaxPacket);
    EmissionKeeps(trace, c0, channel.Model(), stream, data, done, effectivelen);
    var p := Data(stream, data[from..from + effectivelen]);
    longer, sent := trace + [Emitted(p)], p;
    SendData(channel, p);
  }

  /** A wait, the last one made, failed, brought no window, or found the channel closed. */
  predicate GivesUp(state: ChannelState, remoteWindow: nat, waits: seq<Wait>, turns: nat)
    requires turns > 0
  {
    remoteWindow == 0 || state == Closed || (turns <= |waits| && waits[turns - 1].failed)
  }

  /** Where the loop stands: what was written, received and sent, with `len` bytes left after `waited` waits. */
  ghost predicate LoopState(t: seq<Entry>, c0: Chan, c: Chan, stream: Stream, data: seq<byte>, len: nat,
                            waits: seq<Wait>, waited: nat) {
    && len <= |data| && Describes(t, c0, c, stream, data, |data| - len)
    && ArrivedOf(t) == WaitPackets(waits, waited)
    && (c0.remoteMaxPacket == 0 && c0.remoteWindow > 0 ==> len == |data| && c.remoteWindow > 0)
  }

  /** A turn that finds no window: the next of `waits`, or a timeout; the flag says whether the loop goes on. */
  method WaitTurn(channel: Channel, ghost stream: Stream, ghost data: seq<byte>, waits: seq<Wait>, ghost len: nat,
                  waited: nat, ghost trace: seq<Entry>, ghost c0: Chan)
    returns (goesOn: bool, ghost longer: seq<Entry>, ghost c: Chan)
    requires channel.Valid() && channel.remoteWindow == 0 && forall w :: w in waits ==> WellFormed(w.arrivals)
    requires LoopState(trace, c0, channel.Model(), stream, data, len, waits, waited)
    modifies channel.Frame()
    ensures channel.Valid() && fresh(channel.Frame() - old(channel.Frame()))
    ensures channel.sent == old(channel.sent) && PacketsOf(longer) == PacketsOf(trace)
    ensures c == channel.Model() && LoopState(longer, c0, c, stream, data, len, waits, waited + 1)
    ensures !goesOn <==> GivesUp(channel.state, channel.remoteWindow, waits, waited + 1)
    ensures c0.remoteMaxPacket > 0 || c0.remoteWindow == 0
  {
    var w := if waited < |waits| then waits[waited] else Wait([], false);
    longer := WaitForWindow(channel, w, trace, c0, stream, data, |data| - len);
    goesOn := !(w.failed || channel.remoteWindow == 0 || channel.state == Closed);
    c := channel.Model();
  }

  /** A turn that finds a window, and a transport that accepts the packet; `left` bytes are left after it. */
  method SendTurn(channel: Channel, stream: Stream, data: seq<byte>, ghost waits: seq<Wait>, len: nat,
                  ghost waited: nat, ghost trace: seq<Entry>, ghost c0: Chan, ghost sent0: seq<Packet>)
    returns (left: nat, ghost longer: seq<Entry>, ghost c: Chan)
    requires channel.Valid() && len > 0 && channel.remoteWindow > 0
    requires LoopState(trace, c0, channel.Model(), stream, data, len, waits, waited)
    requires channel.sent == sent0 + PacketsOf(trace)
    modifies channel`sent, channel`remoteWindow
    ensures channel.Valid() && left <= len
    ensures channel.sent == sent0 + PacketsOf(longer) && |PacketsOf(longer)| == |PacketsOf(trace)| + 1
    ensures c == channel.Model() && LoopState(longer, c0, c, stream, data, left, waits, waited)
  {
    ghost var p;
    var effectivelen;
    effectivelen, longer, p := SendNext(channel, len, trace, c0, stream, data, |data| - len);
    assert sent0 + (PacketsOf(trace) + [p]) == sent0 + PacketsOf(trace) + [p];
    left := len - effectivelen;
    c := channel.Model();
  }

  /** One turn of the loop, with `packets` packets sent so far: a wait, or a packet the transport accepts. */
  method Turn(channel: Channel, stream: Stream, data: seq<byte>, waits: seq<Wait>, len: nat, waited: nat, packets: nat,
              ghost trace: seq<Entry>, ghost c0: Chan, ghost sent0: seq<Packet>)
    returns (goesOn: bool, left: nat, waits': nat, packets': nat, ghost longer: seq<Entry>, ghost c: Chan)
    requires channel.Valid() && len > 0 && forall w :: w in waits ==> WellFormed(w.arrivals)
    requires LoopState(trace, c0, channel.Model(), stream, data, len, waits, waited)
    requires channel.sent == sent0 + PacketsOf(trace) && packets == |PacketsOf(trace)|
    modifies channel.Frame()
    ensures channel.Valid() && fresh(channel.Frame() - old(channel.Frame()))
    ensures channel.sent == sent0 + PacketsOf(longer) && packets' == |PacketsOf(longer)|
    ensures c == channel.Model() && LoopState(longer, c0, c, stream, data, left, waits, waits')
    ensures !goesOn ==> left == len && waits' > 0 && GivesUp(channel.state, channel.remoteWindow, waits, waits')
                        && (c0.remoteMaxPacket > 0 || c0.remoteWindow == 0)
    ensures goesOn ==>
              if old(channel.remoteWindow) == 0 then
                left == len && packets' == packets && channel.remoteWindow > 0
              else left <= len && packets' == packets + 1
    ensures old(channel.remoteWindow) > 0 ==> goesOn
  {
    if channel.remoteWindow == 0 {
      goesOn, longer, c := WaitTurn(channel, stream, data, waits, len, waited, trace, c0);
      left, waits', packets' := len, waited + 1, packets;
    } else {
      left, longer, c := SendTurn(channel, stream, data, waits, len, waited, trace, c0, sent0);
      goesOn, waits', packets' := true, waited, packets + 1;
    }
  }

  /**
   * The loop of channel_write_common: the waits bring `waits` one after the other and
   * then time out; the transport accepts `accepts` packets and then fails. Every turn
   * sends at least a byte or leaves a window to send it in, unless the peer's packet size
   * is 0: then the loop sends empty packets until the transport fails.
   */
  method WriteLoop(channel: Channel, stream: Stream, data: seq<byte>, waits: seq<Wait>, accepts: nat)
    returns (done: nat, sendFailed: bool, ghost trace: seq<Entry>, ghost turns: nat)
    requires channel.Valid() && !channel.flags.freedLocal && !channel.flags.released
    requires forall w :: w in waits ==> WellFormed(w.arrivals)
    modifies channel.Frame()
    ensures channel.Valid() && fresh(channel.Frame() - old(channel.Frame()))
    ensures channel.sent == old(channel.sent) + PacketsOf(trace)
    ensures Describes(trace, old(channel.Model()), channel.Model(), stream, data, done)
    ensures sendFailed ==> |PacketsOf(trace)| == accepts && done < |data|
    ensures ArrivedOf(trace) == WaitPackets(waits, turns)
    ensures done < |data| && !sendFailed ==> turns > 0 && GivesUp(channel.state, channel.remoteWindow, waits, turns)
    ensures old(channel.remoteMaxPacket) == 0 && old(channel.remoteWindow) > 0 && data != [] ==> sendFailed && done == 0
  {
    trace := [];
    ghost var c0, sent0 := channel.Model(), channel.sent;
    ghost var c := c0;
    assert data[..0] == [];
    var len: nat, waited: nat, packets: nat := |data|, 0, 0;
    while len > 0
      invariant channel.Valid() && fresh(channel.Frame() - old(channel.Frame()))
      invariant channel.sent == sent0 + PacketsOf(trace) && packets == |PacketsOf(trace)| <= accepts
      invariant c == channel.Model() && LoopState(trace, c0, c, stream, data, len, waits, waited)
      decreases len, accepts - packets, if channel.remoteWindow == 0 then 1 else 0
    {
      if channel.remoteWindow > 0 && packets == accepts {
        return |data| - len, true, trace, waited;
      }
      var goesOn;
      goesOn, len, waited, packets, trace, c :=
        Turn(channel, stream, data, waits, len, waited, packets, trace, c0, sent0);
      if !goesOn {
        return |data| - len, false, trace, waited;
      }
    }
    return |data|, false, trace, waited;
  }

  /** A write of `n` bytes is refused at once: too long, finished, not open, closing, or on a broken session. */
  predicate Refused(n: nat, state: ChannelState, flags: Flags) {
    n > 0x7fff_ffff || flags.localEof || state != Open || flags.delayedClose || flags.sessionError
  }

  /**
   * channel_write_common. Whatever arrives during the waits: the payloads sent, each
   * cut as large as the peer allows at that moment, concatenate to the first `done`
   * bytes of the data; a result that is not an error is that `done`, and less than
   * all only when the channel was closed, or a wait failed or brought no window.
   */
  method WriteCommon(channel: Channel, stream: Stream, data: seq<byte>, waits: seq<Wait>, accepts: nat, flush: Wait)
    returns (result: int, ghost done: nat, ghost trace: seq<Entry>, ghost turns: nat)
    requires channel.Valid() && !channel.flags.freedLocal && !channel.flags.released
    requires WellFormed(flush.arrivals) && forall w :: w in waits ==> WellFormed(w.arrivals)
    modifies channel.Frame()
    ensures channel.Valid() && fresh(channel.Frame() - old(channel.Frame()))
    ensures channel.sent == old(channel.sent) + PacketsOf(trace)
    ensures Describes(trace, old(channel.Model()), channel.Model(), stream, data, done)
    ensures result == -1 || result == done
    ensures Refused(|data|, old(channel.state), old(channel.flags)) ==>
              result == -1 && trace == [] && channel.Model() == old(channel.Model())
    ensures
      var flushes := !Refused(|data|, old(channel.state), old(channel.flags)) && done == |data|;
      ArrivedOf(trace) == WaitPackets(waits, turns) + if flushes then PacketsIn(flush.arrivals) else []
    ensures 0 <= result < |data| ==> turns > 0 && GivesUp(channel.state, channel.remoteWindow, waits, turns)
    ensures !Refused(|data|, old(channel.state), old(channel.flags)) && result == -1 ==>
              flush.failed || |PacketsOf(trace)| == accepts
  {
    ghost var c0 := channel.Model();
    if |data| > INT_MAX || channel.flags.localEof || channel.state != Open || channel.flags.delayedClose
       || channel.flags.sessionError {
      assert data[..0] == [];
      return -1, 0, [], 0;
    }
    var sendFailed, n;
    n, sendFailed, trace, turns := WriteLoop(channel, stream, data, waits, accepts);
    done := n;
    assert ArrivedOf(trace) + [] == ArrivedOf(trace);
    if sendFailed {
      return -1, done, trace, turns;
    }
    if n == |data| {
      trace := WaitForWindow(channel, flush, trace, c0, stream, data, n);
      if flush.failed {
        return -1, done, trace, turns;
      }
    }
    return n, done, trace, turns;
  }
}
