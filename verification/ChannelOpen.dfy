/**
 * Opening a channel (channel_open and the two reply handlers of channels.c): the
 * call sends one packet, waits for one reply, and may return SSH_AGAIN any number of
 * times before that.
 */
module ChannelOpen {
  import opened Octets
  import opened ChannelSpec
  import ChannelPair

  datatype Result = Ok | Error | Again

  /** A confirmation carries the peer's window and packet size. */
  datatype Reply = Confirmed(window: nat, maxPacket: nat) | Refused

  /**
   * What happens while a call handles packets: the replies that arrive, whether
   * handling returns SSH_ERROR, whether the session breaks.
   */
  datatype Wait = Wait(replies: seq<Reply>, failed: bool, sessionFails: bool)

  datatype Call = Call(window: nat, packOk: bool, sendOk: bool, wait: Wait)

  /** `opens` are the windows advertised by the OPEN packets sent. */
  datatype Opener = Opener(
    state: ChannelState,
    sessionError: bool,
    localWindow: nat,
    remoteWindow: nat,
    remoteMaxPacket: nat,
    opens: seq<nat>
  )

  /** A confirmation is unpacked into the channel before its state is checked. */
  function OnReply(o: Opener, reply: Reply): Opener {
    match reply
    case Confirmed(window, maxPacket) =>
      o.(remoteWindow := window, remoteMaxPacket := maxPacket, state := if o.state.Opening? then Open else o.state)
    case Refused =>
      if o.state.Opening? then o.(state := OpenDenied) else o
  }

  function OnReplies(o: Opener, replies: seq<Reply>): Opener
    decreases |replies|
  {
    if replies == [] then o else OnReplies(OnReply(o, replies[0]), replies[1..])
  }

  /** The code from the label `pending` on. */
  function AwaitReply(o: Opener, w: Wait): (Opener, Result) {
    if !o.state.Opening? || o.sessionError then
      (o, if o.state.Open? then Ok else Result.Error)
    else
      var o1 := OnReplies(o, w.replies).(sessionError := w.sessionFails);
      var undecided := o1.state.Opening? && !w.failed && !w.sessionFails;
      (o1, if o1.state.Open? then Ok else if undecided then Result.Again else Result.Error)
  }

  function Do(o: Opener, c: Call): (Opener, Result) {
    match o.state
    case Opening => AwaitReply(o, c.wait)
    case NotOpen =>
      var o1 := o.(localWindow := c.window);
      if !c.packOk then (o1, Result.Error)
      else if !c.sendOk then (o1.(state := Opening), Result.Error)
      else AwaitReply(o1.(state := Opening, opens := o.opens + [c.window]), c.wait)
    case _ => (o, if o.state.Open? then Ok else Result.Error)
  }

  class OpeningChannel {
    var state: ChannelState
    var sessionError: bool
    var localWindow: nat
    var remoteWindow: nat
    var remoteMaxPacket: nat
    var opens: seq<nat>

    ghost function Fields(): Opener
      reads this
    {
      Opener(state, sessionError, localWindow, remoteWindow, remoteMaxPacket, opens)
    }

    constructor ()
      ensures Fields() == Opener(NotOpen, false, 0, 0, 0, [])
    {
      state, sessionError, localWindow, remoteWindow, remoteMaxPacket, opens := NotOpen, false, 0, 0, 0, [];
    }

    /** ssh_packet_channel_open_conf and ssh_packet_channel_open_fail */
    method Replied(reply: Reply)
      modifies this`state, this`remoteWindow, this`remoteMaxPacket
      ensures Fields() == OnReply(old(Fields()), reply)
    {
      match reply {
        case Confirmed(window, maxPacket) =>
          remoteWindow, remoteMaxPacket := window, maxPacket;
          if state != Opening {
            return;
          }
          state := Open;
        case Refused =>
          if state != Opening {
            return;
          }
          state := OpenDenied;
      }
    }

    /** ssh_handle_packets_termination, until the state is no longer OPENING. */
    method HandlePackets(w: Wait) returns (result: Result)
      requires state.Opening? && !sessionError
      modifies this
      ensures Fields() == OnReplies(old(Fields()), w.replies).(sessionError := w.sessionFails)
      ensures result == if w.failed then Result.Error else if state.Opening? && !sessionError then Result.Again else Ok
    {
      var i := 0;
      assert w.replies[0..] == w.replies;
      while i < |w.replies|
        invariant 0 <= i <= |w.replies| && !sessionError
        invariant OnReplies(Fields(), w.replies[i..]) == OnReplies(old(Fields()), w.replies)
      {
        assert w.replies[i..][1..] == w.replies[i + 1..];
        Replied(w.replies[i]);
        i := i + 1;
      }
      sessionError := w.sessionFails;
      result := if w.failed then Result.Error else if state == Opening && !sessionError then Result.Again else Ok;
    }

    /** channel_open */
    method OpenCall(c: Call) returns (result: Result)
      modifies this
      ensures (Fields(), result) == Do(old(Fields()), c)
    {
      result := Result.Error;
      if state == NotOpen {
        localWindow := c.window;
        if !c.packOk {
          return;
        }
        state := Opening;
        if !c.sendOk {
          return;
        }
        opens := opens + [c.window];
      }
      if state == Opening {
        if sessionError {
          result := Ok;
        } else {
          result := HandlePackets(c.wait);
        }
        if sessionError {
          result := Result.Error;
        }
      }
      if state == Open {
        result := Ok;
      } else if result != Result.Again {
        result := Result.Error;
      }
    }
  }

  // ---- One call ----

  /** The call waits for replies: its packet is out, or goes out now, and the session lives. */
  predicate Waits(o: Opener, c: Call) {
    !o.sessionError && (o.state.Opening? || (o.state.NotOpen? && c.packOk && c.sendOk))
  }

  /**
   * The result of a call, exactly: SSH_OK if the channel is open after it; SSH_AGAIN if it
   * waited in vain and nothing failed; else an error. Only a call on a channel never opened
   * sends the packet, and sets the window.
   */
  lemma OpenResultExactly(o: Opener, c: Call)
    ensures
      var (o1, result) := Do(o, c);
      && (result == Ok <==> o1.state == Open)
      && (result == Result.Again
          <==> Waits(o, c) && o1.state == Opening && !c.wait.failed && !c.wait.sessionFails)
      && o1.opens == o.opens + (if o.state == NotOpen && c.packOk && c.sendOk then [c.window] else [])
      && o1.localWindow == (if o.state == NotOpen then c.window else o.localWindow)
      && o1.sessionError == (if Waits(o, c) then c.wait.sessionFails else o.sessionError)
      && (!Waits(o, c) ==> o1.state == if o.state == NotOpen && c.packOk then Opening else o.state)
      && (Waits(o, c) ==>
            var replies := c.wait.replies;
            o1.state == if replies == [] then Opening else if replies[0].Confirmed? then Open else OpenDenied)
  {
    assert o.opens + [] == o.opens;
    if Waits(o, c) {
      var o0 := if o.state.Opening? then o
                else o.(localWindow := c.window, state := Opening, opens := o.opens + [c.window]);
      RepliesDecide(o0, [], c.wait.replies);
      assert [] + c.wait.replies == c.wait.replies;
    }
  }

  // ---- Runs ----

  datatype Event = Replied(reply: Reply) | Called(call: Call)

  predicate ErrorFree(e: Event) {
    e.Called? ==> !e.call.wait.failed && !e.call.wait.sessionFails
  }

  function After(o: Opener, e: Event): Opener {
    match e
    case Replied(reply) => OnReply(o, reply)
    case Called(c) => Do(o, c).0
  }

  function Run(o: Opener, events: seq<Event>): Opener {
    if events == [] then o else After(Run(o, events[..|events| - 1]), events[|events| - 1])
  }

  function RepliesOf(e: Event): seq<Reply> {
    match e
    case Replied(reply) => [reply]
    case Called(c) => c.wait.replies
  }

  /** Every reply a run brings, during calls and between them. */
  function Replies(events: seq<Event>): seq<Reply> {
    if events == [] then [] else Replies(events[..|events| - 1]) + RepliesOf(events[|events| - 1])
  }

  /** The replies an event hands to the channel: those of a call only if it waits. */
  function Handled(o: Opener, e: Event): seq<Reply> {
    match e
    case Replied(reply) => [reply]
    case Called(c) => if Waits(o, c) then c.wait.replies else []
  }

  /** All replies received in a run. */
  function Received(o: Opener, events: seq<Event>): seq<Reply> {
    if events == [] then []
    else
      var k := |events| - 1;
      Received(o, events[..k]) + Handled(Run(o, events[..k]), events[k])
  }

  function LastConfirmed(replies: seq<Reply>): (last: Option<Reply>)
    ensures last.Some? ==> last.value.Confirmed? && last.value in replies
    ensures last.None? <==> forall r :: r in replies ==> r.Refused?
  {
    if replies == [] then None
    else
      var last := LastConfirmed(replies[1..]);
      if last.Some? then last else if replies[0].Confirmed? then Some(replies[0]) else None
  }

  /** The last confirmation is the one behind which there are only refusals. */
  lemma {:induction false} LastConfirmedIs(a: seq<Reply>, reply: Reply, b: seq<Reply>)
    requires reply.Confirmed? && forall r :: r in b ==> r.Refused?
    ensures LastConfirmed(a + [reply] + b) == Some(reply)
  {
    if a == [] {
      assert (a + [reply] + b)[1..] == b;
    } else {
      LastConfirmedIs(a[1..], reply, b);
      assert (a + [reply] + b)[1..] == a[1..] + [reply] + b;
    }
  }

  lemma {:induction false} LastOfBoth(a: seq<Reply>, b: seq<Reply>)
    ensures LastConfirmed(a + b) == if LastConfirmed(b).Some? then LastConfirmed(b) else LastConfirmed(a)
  {
    if a == [] {
      assert a + b == b;
    } else {
      LastOfBoth(a[1..], b);
      assert (a + b)[1..] == a[1..] + b;
    }
  }

  /** `o1` has the peer's window and packet size of the last confirmation, else those of `o`. */
  predicate HasValues(o: Opener, o1: Opener, replies: seq<Reply>) {
    match LastConfirmed(replies)
    case None => o1.remoteWindow == o.remoteWindow && o1.remoteMaxPacket == o.remoteMaxPacket
    case Some(reply) => o1.remoteWindow == reply.window && o1.remoteMaxPacket == reply.maxPacket
  }

  lemma {:induction false} RepliesSetValues(o: Opener, replies: seq<Reply>)
    ensures HasValues(o, OnReplies(o, replies), replies)
    decreases |replies|
  {
    if replies != [] {
      RepliesSetValues(OnReply(o, replies[0]), replies[1..]);
    }
  }

  lemma CallSetsValues(o: Opener, c: Call)
    ensures HasValues(o, Do(o, c).0, Handled(o, Called(c)))
  {
    if Waits(o, c) {
      var o0 := if o.state.Opening? then o
                else o.(localWindow := c.window, state := Opening, opens := o.opens + [c.window]);
      RepliesSetValues(o0, c.wait.replies);
    }
  }

  /**
   * In every run, whatever failed: the peer's window and packet size are the two fields of
   * the last confirmation received, in that order, or as before if there was none.
   */
  lemma {:induction false} ValuesAreConfirmed(o: Opener, events: seq<Event>)
    ensures HasValues(o, Run(o, events), Received(o, events))
    decreases |events|
  {
    if events != [] {
      var before, e := events[..|events| - 1], events[|events| - 1];
      ValuesAreConfirmed(o, before);
      LastOfBoth(Received(o, before), Handled(Run(o, before), e));
      if e.Called? {
        CallSetsValues(Run(o, before), e.call);
      } else {
        RepliesSetValues(Run(o, before), [e.reply]);
        assert OnReplies(Run(o, before), [e.reply]) == OnReply(Run(o, before), e.reply);
      }
    }
  }

  /** A call answered by one confirmation leaves the channel as both ends' offers say, ready to be used. */
  lemma OpenedAsOffered(o: Opener, c: Call, window: nat, maxPacket: nat)
    requires o.state.NotOpen? && !o.sessionError && c.packOk && c.sendOk
    requires c.wait.replies == [Confirmed(window, maxPacket)]
    ensures
      var (o1, result) := Do(o, c);
      var start := ChannelPair.Opened(ChannelPair.Offer(c.window, 0), ChannelPair.Offer(window, maxPacket)).chan;
      && result == Ok && o1.state == start.state && o1.localWindow == start.localWindow
      && o1.remoteWindow == start.remoteWindow && o1.remoteMaxPacket == start.remoteMaxPacket
  {
    assert c.wait.replies[1..] == [] && [] + c.wait.replies == c.wait.replies;
    OpenResultExactly(o, c);
    CallSetsValues(o, c);
    RepliesDecide(o.(localWindow := c.window, state := Opening, opens := o.opens + [c.window]), [], c.wait.replies);
  }

  /** The first reply decides. */
  function Verdict(replies: seq<Reply>): Result {
    if replies == [] then Result.Again else if replies[0].Confirmed? then Ok else Result.Error
  }

  function StateFor(replies: seq<Reply>): ChannelState {
    if replies == [] then Opening else if replies[0].Confirmed? then Open else OpenDenied
  }

  /** A reply to a channel that is not opening changes nothing, unless it is a confirmation with other values. */
  lemma UnsolicitedReply(o: Opener, reply: Reply)
    requires !o.state.Opening?
    ensures OnReply(o, reply) == o <==>
              reply.Refused? || (reply.window == o.remoteWindow && reply.maxPacket == o.remoteMaxPacket)
    ensures OnReply(o, reply).state == o.state && OnReply(o, reply).opens == o.opens
  {
  }

  lemma {:induction false} RepliesDecide(o: Opener, before: seq<Reply>, replies: seq<Reply>)
    requires o.state == StateFor(before)
    ensures
      var o1 := OnReplies(o, replies);
      && o1.state == StateFor(before + replies)
      && o1.opens == o.opens && o1.sessionError == o.sessionError && o1.localWindow == o.localWindow
    decreases |replies|
  {
    if replies == [] {
      assert before + replies == before;
    } else {
      var next := before + [replies[0]];
      assert before + replies == next + replies[1..];
      RepliesDecide(OnReply(o, replies[0]), next, replies[1..]);
    }
  }

  /** A call on a channel whose OPEN packet is out, or already answered. */
  lemma CallDecides(o: Opener, before: seq<Reply>, c: Call)
    requires o.state == StateFor(before) && !o.sessionError && ErrorFree(Called(c))
    ensures
      var (o1, result) := Do(o, c);
      && result == Verdict(before + c.wait.replies)
      && o1.state == StateFor(before + c.wait.replies)
      && o1.opens == o.opens && !o1.sessionError && o1.localWindow == o.localWindow
  {
    RepliesDecide(o, before, c.wait.replies);
    if before != [] {
      assert (before + c.wait.replies)[0] == before[0];
    }
  }

  lemma RunStep(o: Opener, events: seq<Event>, e: Event)
    ensures Run(o, events + [e]) == After(Run(o, events), e)
    ensures Replies(events + [e]) == Replies(events) + RepliesOf(e)
  {
    assert (events + [e])[..|events|] == events;
  }

  /** A first call that gets its packet out, and any error-free calls and replies after it. */
  ghost predicate Started(o: Opener, first: Call, later: seq<Event>) {
    && o.state.NotOpen? && !o.sessionError && first.packOk && first.sendOk && ErrorFree(Called(first))
    && (forall e :: e in later ==> ErrorFree(e))
  }

  lemma {:induction false} OpenedOnce(o: Opener, first: Call, later: seq<Event>)
    requires Started(o, first, later)
    ensures
      var events := [Called(first)] + later;
      var o1 := Run(o, events);
      && o1.opens == o.opens + [first.window] && o1.localWindow == first.window && !o1.sessionError
      && o1.state == StateFor(Replies(events))
    decreases |later|
  {
    if later == [] {
      assert [Called(first)] + later == [] + [Called(first)];
      RunStep(o, [], Called(first));
      var o1 := o.(state := Opening, localWindow := first.window, opens := o.opens + [first.window]);
      RepliesDecide(o1, [], first.wait.replies);
      assert [] + first.wait.replies == first.wait.replies;
    } else {
      var before, e := [Called(first)] + later[..|later| - 1], later[|later| - 1];
      assert [Called(first)] + later == before + [e] && e in later;
      RunStep(o, before, e);
      OpenedOnce(o, first, later[..|later| - 1]);
      var o0 := Run(o, before);
      if e.Called? {
        CallDecides(o0, Replies(before), e.call);
      } else {
        RepliesDecide(o0, Replies(before), [e.reply]);
        assert OnReplies(o0, [e.reply]) == OnReply(o0, e.reply);
      }
    }
  }

  /**
   * However often the call is made again, with whatever replies in between, one OPEN
   * packet is sent, and every call returns what the first reply of all says, or
   * SSH_AGAIN while there is none; the peer's window and packet size are those of the last
   * confirmation received.
   */
  lemma OneOpenOneReply(o: Opener, first: Call, later: seq<Event>, last: Call)
    requires Started(o, first, later) && ErrorFree(Called(last))
    ensures
      var events := [Called(first)] + later;
      var (o1, result) := Do(Run(o, events), last);
      && o1.opens == o.opens + [first.window]
      && result == Verdict(Replies(events) + last.wait.replies)
      && HasValues(o, o1, Received(o, events) + Handled(Run(o, events), Called(last)))
  {
    OpenedOnce(o, first, later);
    ValuesAreConfirmed(o, [Called(first)] + later);
    CallSetsValues(Run(o, [Called(first)] + later), last);
    LastOfBoth(Received(o, [Called(first)] + later), Handled(Run(o, [Called(first)] + later), Called(last)));
    CallDecides(Run(o, [Called(first)] + later), Replies([Called(first)] + later), last);
  }

  /** After a failed send the channel is OPENING all the same, and no retry sends the packet. */
  lemma {:induction false} FailedSendIsNotRetried(o: Opener, first: Call, later: seq<Event>)
    requires o.state.NotOpen? && !o.sessionError && first.packOk && !first.sendOk
    requires (forall e :: e in later ==> ErrorFree(e))
    ensures
      var o1 := Run(Do(o, first).0, later);
      o1.opens == o.opens && !o1.sessionError && o1.state == StateFor(Replies(later))
    decreases |later|
  {
    if later != [] {
      var before, e := later[..|later| - 1], later[|later| - 1];
      assert later == before + [e] && e in later;
      RunStep(Do(o, first).0, before, e);
      FailedSendIsNotRetried(o, first, before);
      var o0 := Run(Do(o, first).0, before);
      if e.Called? {
        CallDecides(o0, Replies(before), e.call);
      } else {
        RepliesDecide(o0, Replies(before), [e.reply]);
        assert OnReplies(o0, [e.reply]) == OnReply(o0, e.reply);
      }
    }
  }
}
