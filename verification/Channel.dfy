/**
 * The channel of channels.c as the mutable object it is: windows, flags, two receive
 * buffers of buffer.c, and the packets it hands to ssh_packet_send. Every function is
 * proved against ChannelSpec, on which the two-peer results rest.
 */
module Channels {
  import opened Octets
  import opened SshBuffers
  import opened ChannelSpec

  const INT_MAX: nat := 0x7fff_ffff

  /** The same packets; an allocation that would fail may turn out not to be needed. */
  predicate SamePackets(seen: seq<Arrival>, arrivals: seq<Arrival>) {
    |seen| == |arrivals| && forall i :: 0 <= i < |seen| ==> seen[i].packet == arrivals[i].packet
  }

  lemma SeenOneMore(c: Chan, seen: seq<Arrival>, arrivals: seq<Arrival>, i: nat, stored: bool)
    requires i < |arrivals| && SamePackets(seen, arrivals[..i])
    ensures
      var a := Arrival(arrivals[i].packet, stored);
      && SamePackets(seen + [a], arrivals[..i + 1])
      && ReceiveAll(c, seen + [a]) == Receive(ReceiveAll(c, seen), a.packet, stored)
  {
    assert (seen + [Arrival(arrivals[i].packet, stored)])[..i] == seen;
  }

  predicate WellFormed(arrivals: seq<Arrival>) {
    forall a :: a in arrivals && a.packet.WindowAdjust? ==> a.packet.bytes < TWO_32
  }

  /** The same choices, up to allocations that turn out not to be needed. */
  predicate SameEnv(x: CloseEnv, e: CloseEnv) {
    && x == e.(first := x.first, second := x.second)
    && SamePackets(x.first, e.first) && SamePackets(x.second, e.second)
  }

  class Channel {
    const stdoutBuffer: SshBuffer
    const stderrBuffer: SshBuffer
    var state: ChannelState
    var localWindow: nat
    var remoteWindow: nat
    var remoteMaxPacket: nat
    var flags: Flags
    var sent: seq<Packet>

    ghost function Frame(): set<object>
      reads stdoutBuffer, stderrBuffer
    {
      {this, stdoutBuffer, stdoutBuffer.data, stderrBuffer, stderrBuffer.data}
    }

    ghost predicate Valid()
      reads this, stdoutBuffer, stderrBuffer
    {
      && stdoutBuffer != stderrBuffer && stdoutBuffer.data != stderrBuffer.data
      && stdoutBuffer.Valid() && stderrBuffer.Valid()
      && localWindow < TWO_32 && remoteWindow < TWO_32 && remoteMaxPacket < TWO_32
    }

    /** The channel as a value. */
    ghost function Model(): Chan
      requires Valid()
      reads this, stdoutBuffer, stdoutBuffer.data, stderrBuffer, stderrBuffer.data
    {
      Chan(state, localWindow, remoteWindow, remoteMaxPacket, stdoutBuffer.View(), stderrBuffer.View(), flags)
    }

    /** A channel whose open was confirmed with the peer's window and packet size. */
    constructor (window: nat, peerWindow: nat, peerMaxPacket: nat)
      requires window < TWO_32 && peerWindow < TWO_32 && peerMaxPacket < TWO_32
      ensures Valid() && fresh(Frame()) && sent == []
      ensures Model() == Chan(Open, window, peerWindow, peerMaxPacket, [], [],
                              Flags(false, false, false, false, false, false, false, false, false))
    {
      stdoutBuffer := new SshBuffer();
      stderrBuffer := new SshBuffer();
      state := Open;
      localWindow, remoteWindow, remoteMaxPacket := window, peerWindow, peerMaxPacket;
      flags := Flags(false, false, false, false, false, false, false, false, false);
      sent := [];
    }

    /** grow_window */
    method GrowWindow(sendOk: bool) returns (ok: bool)
      requires Valid()
      modifies this`localWindow, this`sent
      ensures Valid()
      ensures
        var g := Grow(old(Model()), sendOk);
        Model() == g.chan && ok == g.ok && sent == old(sent) + AdjustPackets(g.granted)
    {
      var used := localWindow;
      used := Wrap32(used + (stdoutBuffer.used - stdoutBuffer.pos));
      used := Wrap32(used + (stderrBuffer.used - stderrBuffer.pos));
      var increment := if WINDOW_DEFAULT > used then WINDOW_DEFAULT - used else 0;
      if increment < WINDOW_DEFAULT / 2 {
        return true;
      }
      if !sendOk {
        return false;
      }
      sent := sent + [WindowAdjust(increment)];
      localWindow := Wrap32(localWindow + increment);
      return true;
    }

    /** channel_rcv_change_window */
    method RcvChangeWindow(bytes: nat)
      requires Valid() && bytes < TWO_32
      modifies this`remoteWindow
      ensures Valid() && Model() == RcvWindowAdjust(old(Model()), bytes)
    {
      remoteWindow := Wrap32(remoteWindow + bytes);
    }

    /** channel_default_bufferize; the buffer it frees when memory runs out is empty when next used. */
    method DefaultBufferize(stream: Stream, payload: seq<byte>, allocOk: bool) returns (ok: bool)
      requires Valid() && |payload| < TWO_32
      modifies Frame() - {this}
      ensures Valid() && fresh(Frame() - old(Frame()))
      ensures
        var c := old(Model());
        Model() == c.WithBuffer(stream, if ok then c.Buffer(stream) + payload else [])
      ensures allocOk && |old(Model()).Buffer(stream)| + |payload| < BUFFER_SIZE_MAX ==> ok
    {
      var buffer := if stream.Stdout? then stdoutBuffer else stderrBuffer;
      ok := buffer.AddData(payload, allocOk);
      if !ok {
        var _ := buffer.Reinit(false);
      }
    }

    /** channel_rcv_data */
    method RcvData(stream: Stream, payload: seq<byte>, allocOk: bool) returns (stored: bool)
      requires Valid()
      modifies Frame()
      ensures Valid() && fresh(Frame() - old(Frame())) && sent == old(sent)
      ensures Model() == ChannelSpec.RcvData(old(Model()), stream, payload, stored)
      ensures
        var room := |old(Model()).Buffer(stream)| + |payload| < BUFFER_SIZE_MAX;
        allocOk && |payload| <= old(localWindow) && room ==> stored
    {
      if |payload| > localWindow {
        flags := flags.(fatal := true);
        return false;
      }
      stored := DefaultBufferize(stream, payload, allocOk);
      if stored {
        localWindow := localWindow - |payload|;
      }
    }

    /** channel_rcv_eof */
    method RcvEof()
      requires Valid()
      modifies this`flags
      ensures Valid() && Model() == ChannelSpec.RcvEof(old(Model()))
    {
      flags := flags.(remoteEof := true);
    }

    method HasUnreadData() returns (unread: bool)
      requires Valid()
      ensures unread == Model().HasUnread()
    {
      unread := stdoutBuffer.used - stdoutBuffer.pos > 0 || stderrBuffer.used - stderrBuffer.pos > 0;
    }

    /** channel_rcv_close */
    method RcvClose()
      requires Valid()
      modifies this`state, this`flags
      ensures Valid() && Model() == ChannelSpec.RcvClose(old(Model()))
    {
      var unread := HasUnreadData();
      if !unread {
        state := Closed;
      } else {
        flags := flags.(delayedClose := true);
      }
      flags := flags.(remoteEof := true);
      flags := flags.(closedRemote := true);
      if flags.freedLocal {
        flags := flags.(released := true);
      }
    }

    /** Dispatch of one packet; channel_from_msg finds no channel once it is released. */
    method HandlePacket(a: Arrival) returns (stored: bool)
      requires Valid() && (a.packet.WindowAdjust? ==> a.packet.bytes < TWO_32)
      modifies Frame()
      ensures Valid() && fresh(Frame() - old(Frame())) && sent == old(sent)
      ensures Model() == Receive(old(Model()), a.packet, stored)
    {
      stored := a.allocOk;
      if flags.released {
        flags := flags.(fatal := true);
        return;
      }
      match a.packet {
        case Data(stream, payload) => stored := RcvData(stream, payload, a.allocOk);
        case WindowAdjust(bytes) => RcvChangeWindow(bytes);
        case Eof => RcvEof();
        case Close => RcvClose();
      }
    }

    /** Everything that arrives while a call waits or flushes. */
    method HandlePackets(arrivals: seq<Arrival>) returns (ghost seen: seq<Arrival>)
      requires Valid() && WellFormed(arrivals)
      modifies Frame()
      ensures Valid() && fresh(Frame() - old(Frame())) && sent == old(sent)
      ensures SamePackets(seen, arrivals) && Model() == ReceiveAll(old(Model()), seen)
    {
      seen := [];
      var i := 0;
      while i < |arrivals|
        invariant 0 <= i <= |arrivals| && Valid() && fresh(Frame() - old(Frame())) && sent == old(sent)
        invariant SamePackets(seen, arrivals[..i]) && Model() == ReceiveAll(old(Model()), seen)
      {
        var stored := HandlePacket(arrivals[i]);
        SeenOneMore(old(Model()), seen, arrivals, i, stored);
        seen := seen + [Arrival(arrivals[i].packet, stored)];
        i := i + 1;
      }
    }

    /** ssh_channel_read_timeout; `arrivals` come while it waits, and `failed` says the wait ended with SSH_ERROR. */
    method ReadTimeout(stream: Stream, count: nat, arrivals: seq<Arrival>, failed: bool, sendOk: bool)
      returns (r: ReadResult, ghost seen: seq<Arrival>)
      requires Valid() && WellFormed(arrivals)
      modifies Frame()
      ensures Valid() && fresh(Frame() - old(Frame()))
      ensures
        var c := old(Model());
        var waits := count > 0 && !ReadReady(c, stream);
        var x := Read(ReceiveAll(c, seen), stream, count, sendOk);
        && (if waits then SamePackets(seen, arrivals) else seen == [])
        && if waits && failed then
             Model() == ReceiveAll(c, seen) && r == Error && sent == old(sent)
           else
             Model() == x.chan && r == x.result && sent == old(sent) + AdjustPackets(x.granted)
    {
      seen := [];
      if count == 0 {
        return Got([]), [];
      }
      var ready := BufferOrEof(stream);
      if !ready {
        seen := HandlePackets(arrivals);
        if failed {
          return Error, seen;
        }
        ready := BufferOrEof(stream);
        if !ready {
          return Again, seen;
        }
      }
      r := TakeBytes(stream, count, sendOk);
    }

    /** ssh_channel_read_termination */
    method BufferOrEof(stream: Stream) returns (ready: bool)
      requires Valid()
      ensures ready == ReadReady(Model(), stream)
    {
      var buffer := if stream.Stdout? then stdoutBuffer else stderrBuffer;
      ready := buffer.used - buffer.pos >= 1 || flags.remoteEof || flags.sessionError;
    }

    /** The rest of a read, once its wait has ended. */
    method TakeBytes(stream: Stream, count: nat, sendOk: bool) returns (r: ReadResult)
      requires Valid() && count > 0 && ReadReady(Model(), stream)
      modifies Frame()
      ensures Valid() && fresh(Frame() - old(Frame()))
      ensures
        var x := Read(old(Model()), stream, count, sendOk);
        Model() == x.chan && r == x.result && sent == old(sent) + AdjustPackets(x.granted)
    {
      var buffer := if stream.Stdout? then stdoutBuffer else stderrBuffer;
      if flags.sessionError {
        return Error;
      }
      if flags.remoteEof && buffer.used == buffer.pos {
        return Got([]);
      }
      if state == Closed {
        return Error;
      }
      var len := Min(buffer.used - buffer.pos, count);
      r := TakeAndGrow(stream, len, sendOk);
    }

    method TakeAndGrow(stream: Stream, len: nat, sendOk: bool) returns (r: ReadResult)
      requires Valid() && len <= |Model().Buffer(stream)|
      modifies Frame()
      ensures Valid() && Frame() == old(Frame())
      ensures
        var g := Grow(AfterTake(old(Model()), stream, len), sendOk);
        && Model() == g.chan && sent == old(sent) + AdjustPackets(g.granted)
        && r == if g.ok then Got(old(Model()).Buffer(stream)[..len]) else Error
    {
      var taken := PassTaken(stream, len);
      var ok := GrowWindow(sendOk);
      r := if ok then Got(taken) else Error;
    }

    method PassTaken(stream: Stream, len: nat) returns (taken: seq<byte>)
      requires Valid() && len <= |Model().Buffer(stream)|
      modifies Frame()
      ensures Valid() && Frame() == old(Frame()) && sent == old(sent)
      ensures Model() == AfterTake(old(Model()), stream, len) && taken == old(Model()).Buffer(stream)[..len]
    {
      taken := CopyOut(stream, len);
      CompleteDelayedClose();
    }

    /** Copy the front of a buffer to the caller and drop it. */
    method CopyOut(stream: Stream, len: nat) returns (taken: seq<byte>)
      requires Valid() && len <= |Model().Buffer(stream)|
      modifies Frame() - {this}
      ensures Valid() && Frame() == old(Frame())
      ensures
        var c := old(Model());
        Model() == c.WithBuffer(stream, c.Buffer(stream)[len..]) && taken == c.Buffer(stream)[..len]
    {
      var buffer := if stream.Stdout? then stdoutBuffer else stderrBuffer;
      taken := buffer.data[buffer.pos..buffer.pos + len];
      assert taken == buffer.View()[..len];
      var _ := buffer.PassBytes(len);
    }

    method CompleteDelayedClose()
      requires Valid()
      modifies this`state
      ensures Valid()
      ensures
        var c := old(Model());
        Model() == if c.flags.delayedClose && !c.HasUnread() then c.(state := Closed) else c
    {
      var unread := HasUnreadData();
      if flags.delayedClose && !unread {
        state := Closed;
      }
    }

    /** ssh_channel_send_eof; `arrivals` come while it flushes, and `flush` is what the flush returns. */
    method SendEof(sendOk: bool, flush: Rc, arrivals: seq<Arrival>) returns (rc: Rc, ghost seen: seq<Arrival>)
      requires Valid() && WellFormed(arrivals)
      modifies Frame()
      ensures Valid() && fresh(Frame() - old(Frame()))
      ensures rc == if old(flags.localEof) then RcOk else if sendOk then flush else RcError
      ensures
        if old(flags.localEof) || !sendOk then
          Model() == old(Model()) && sent == old(sent)
        else
          && SamePackets(seen, arrivals) && sent == old(sent) + [Eof]
          && Model() == AfterEofFlushed(ReceiveAll(old(Model()), seen), flush)
    {
      if flags.localEof {
        return RcOk, [];
      }
      if !sendOk {
        return RcError, [];
      }
      sent := sent + [Eof];
      seen := HandlePackets(arrivals);
      if flush == RcError {
        return RcError, seen;
      }
      flags := flags.(localEof := true);
      return flush, seen;
    }

    /** The second half of ssh_channel_close. */
    method SendClose(sendOk: bool, arrivals: seq<Arrival>) returns (ghost seen: seq<Arrival>)
      requires Valid() && WellFormed(arrivals)
      modifies Frame()
      ensures Valid() && fresh(Frame() - old(Frame()))
      ensures sent == old(sent) + (if sendOk then [Close] else []) && SamePackets(seen, arrivals)
      ensures Model() == ReceiveAll(if sendOk then AfterCloseSent(old(Model())) else old(Model()), seen)
    {
      if sendOk {
        sent := sent + [Close];
        state := Closed;
        flags := flags.(closedLocal := true);
      }
      seen := HandlePackets(arrivals);
    }

    /** ssh_channel_close; its two sends and its two flushes end as `e` says, and packets arrive during the flushes. */
    method CloseCall(e: CloseEnv) returns (rc: Rc, ghost x: CloseEnv)
      requires Valid() && WellFormed(e.first) && WellFormed(e.second)
      modifies Frame()
      ensures Valid() && fresh(Frame() - old(Frame())) && SameEnv(x, e)
      ensures
        var closing := CloseOf(old(Model()), x);
        Model() == closing.chan && sent == old(sent) + closing.packets && rc == closing.rc
    {
      x := e;
      if flags.closedLocal {
        return RcOk, x;
      }
      ghost var hadEof := flags.localEof;
      ghost var seen;
      rc, seen := SendEof(e.eofOk, e.eofFlush, e.first);
      if !hadEof && e.eofOk {
        x := x.(first := seen);
      }
      if rc != RcOk {
        return rc, x;
      }
      ghost var after := SendClose(e.closeOk, e.second);
      x := x.(second := after);
      return e.closeFlush, x;
    }

    /** ssh_channel_free, with what ssh_channel_do_free leaves; `alive`: the session is; `bound`: the open succeeded. */
    method Free(alive: bool, bound: bool, e: CloseEnv) returns (ghost x: CloseEnv)
      requires Valid() && WellFormed(e.first) && WellFormed(e.second)
      modifies Frame()
      ensures Valid() && fresh(Frame() - old(Frame())) && SameEnv(x, e)
      ensures
        var closing := FreeOf(old(Model()), alive, bound, x);
        Model() == closing.chan && sent == old(sent) + closing.packets
    {
      x := e;
      if alive {
        var sendClose := WantsClose();
        if sendClose {
          var rc;
          rc, x := CloseCall(e);
        }
      }
      MarkFreed(bound);
    }

    method WantsClose() returns (sendClose: bool)
      requires Valid()
      ensures sendClose == FreeSendsClose(Model())
    {
      sendClose := false;
      match state {
        case Open => sendClose := true;
        case Closed =>
          if flags.closedRemote {
            sendClose := true;
          }
          if flags.closedLocal {
            sendClose := false;
          }
        case _ => sendClose := false;
      }
    }

    method MarkFreed(bound: bool)
      requires Valid()
      modifies this`flags
      ensures Valid()
      ensures
        var freed := AfterFree(old(Model()));
        Model() == if bound then freed else freed.(flags := freed.flags.(released := true))
    {
      flags := flags.(freedLocal := true);
      if flags.closedRemote || !bound {
        flags := flags.(released := true);
      }
    }
  }
}
