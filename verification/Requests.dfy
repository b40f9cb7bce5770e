/**
 * Requests that wait for one reply (channels.c): channel_request on a channel's
 * request_state and ssh_global_request on the session's global_req_state, which
 * treat their slot alike. A nonblocking call returns SSH_AGAIN and is made again later.
 */
module Requests {
  import opened Octets

  datatype Slot = NoRequest | Pending | Accepted | Denied | Failed

  datatype Request = Request(name: string, wantReply: bool)

  datatype Result = Ok | Error | Again

  /**
   * What happens while a call handles packets: the replies that arrive (true for
   * success), whether handling returns SSH_ERROR, whether the session breaks.
   */
  datatype Wait = Wait(replies: seq<bool>, failed: bool, sessionFails: bool)

  datatype Call = Call(request: Request, packOk: bool, sendOk: bool, wait: Wait)

  /** Which request holds the slot: one whose packet is out, or one that could not be sent. */
  datatype Holder = Nobody | Out(request: Request) | Stuck(request: Request)

  /**
   * `decided` replies found a request pending and `late` ones did not; `abandoned`
   * requests were given up while pending, when handling packets failed; `unsent` ones
   * could not be sent and hold the slot all the same.
   */
  datatype Tally = Tally(decided: nat, late: nat, abandoned: nat, unsent: nat, holder: Holder)

  datatype Req = Req(slot: Slot, sessionError: bool, sent: seq<Request>, tally: Tally)

  function OnReply(r: Req, success: bool): Req {
    if r.slot.Pending? then
      r.(slot := if success then Accepted else Denied, tally := r.tally.(decided := r.tally.decided + 1))
    else
      r.(tally := r.tally.(late := r.tally.late + 1))
  }

  function OnReplies(r: Req, replies: seq<bool>): Req
    decreases |replies|
  {
    if replies == [] then r else OnReplies(OnReply(r, replies[0]), replies[1..])
  }

  /** ssh_handle_packets_termination until the slot is decided; the flag is its SSH_ERROR. */
  function Waited(r: Req, w: Wait): (Req, bool) {
    if r.slot.Pending? && !r.sessionError then
      (OnReplies(r, w.replies).(sessionError := w.sessionFails), w.failed)
    else
      (r, false)
  }

  /** The code from the label `pending` on. */
  function AwaitReply(r: Req, w: Wait): (Req, Result) {
    var (r1, failed) := Waited(r, w);
    var slot := if r1.sessionError || failed then Failed else r1.slot;
    if slot.Pending? then (r1, Again)
    else (r1.(slot := NoRequest, tally := AfterWait(r1)), if slot.Accepted? then Ok else Error)
  }

  /** A slot still pending when it is emptied is given up. */
  function AfterWait(r: Req): Tally {
    r.tally.(abandoned := r.tally.abandoned + if r.slot.Pending? then 1 else 0, holder := Nobody)
  }

  function Sent(r: Req, request: Request): Req {
    r.(slot := Pending, sent := r.sent + [request], tally := r.tally.(holder := Out(request)))
  }

  function Unsent(r: Req, request: Request): Req {
    r.(slot := Pending, tally := r.tally.(unsent := r.tally.unsent + 1, holder := Stuck(request)))
  }

  function Do(r: Req, c: Call): (Req, Result) {
    if !r.slot.NoRequest? then AwaitReply(r, c.wait)
    else if !c.packOk then (r, Error)
    else if !c.sendOk then (Unsent(r, c.request), Error)
    else if !c.request.wantReply then (r.(sent := r.sent + [c.request]), Ok)
    else AwaitReply(Sent(r, c.request), c.wait)
  }

  function Fresh(): Req {
    Req(NoRequest, false, [], Tally(0, 0, 0, 0, Nobody))
  }

  class RequestState {
    var slot: Slot
    var sessionError: bool
    var sent: seq<Request>
    ghost var tally: Tally

    ghost function Fields(): Req
      reads this
    {
      Req(slot, sessionError, sent, tally)
    }

    constructor ()
      ensures Fields() == Fresh()
    {
      slot, sessionError, sent, tally := NoRequest, false, [], Tally(0, 0, 0, 0, Nobody);
    }

    /** ssh_packet_channel_success and _failure, ssh_request_success and _denied. */
    method Replied(success: bool)
      modifies this`slot, this`tally
      ensures Fields() == OnReply(old(Fields()), success)
    {
      if slot == Pending {
        slot := if success then Accepted else Denied;
        tally := tally.(decided := tally.decided + 1);
      } else {
        tally := tally.(late := tally.late + 1);
      }
    }

    /** ssh_handle_packets_termination */
    method HandlePackets(w: Wait) returns (failed: bool)
      modifies this
      ensures (Fields(), failed) == Waited(old(Fields()), w)
    {
      failed := false;
      if slot == Pending && !sessionError {
        var i := 0;
        assert w.replies[0..] == w.replies;
        while i < |w.replies|
          invariant 0 <= i <= |w.replies| && !sessionError
          invariant OnReplies(Fields(), w.replies[i..]) == OnReplies(old(Fields()), w.replies)
        {
          assert w.replies[i..][1..] == w.replies[i + 1..];
          Replied(w.replies[i]);
          i := i + 1;
        }
        sessionError := w.sessionFails;
        failed := w.failed;
      }
    }

    /** channel_request and ssh_global_request */
    method Perform(c: Call) returns (result: Result)
      modifies this
      ensures (Fields(), result) == Do(old(Fields()), c)
    {
      if slot == NoRequest {
        if !c.packOk {
          return Error;
        }
        slot := Pending;
        if !c.sendOk {
          tally := tally.(unsent := tally.unsent + 1, holder := Stuck(c.request));
          return Error;
        }
        sent := sent + [c.request];
        if !c.request.wantReply {
          slot := NoRequest;
          return Ok;
        }
        tally := tally.(holder := Out(c.request));
      }
      var failed := HandlePackets(c.wait);
      ghost var waiting := slot == Pending;
      if sessionError || failed {
        slot := Failed;
      }
      match slot {
        case Failed => result := Error;
        case Denied => result := Error;
        case Accepted => result := Ok;
        case Pending => return Again;
        case NoRequest => result := Error;
      }
      slot := NoRequest;
      tally := tally.(abandoned := tally.abandoned + if waiting then 1 else 0, holder := Nobody);
    }
  }

  // ---- Runs ----

  datatype Event = Replied(success: bool) | Called(call: Call) | SessionFails

  function After(r: Req, e: Event): Req {
    match e
    case Replied(success) => OnReply(r, success)
    case Called(c) => Do(r, c).0
    case SessionFails => r.(sessionError := true)
  }

  function Run(r: Req, events: seq<Event>): Req {
    if events == [] then r else After(Run(r, events[..|events| - 1]), events[|events| - 1])
  }

  /** What the calls of a run return. */
  function Results(r: Req, events: seq<Event>): seq<Result> {
    if events == [] then []
    else
      var k := |events| - 1;
      Results(r, events[..k])
      + (if events[k].Called? then [Do(Run(r, events[..k]), events[k].call).1] else [])
  }

  predicate ErrorFree(e: Event) {
    match e
    case Replied(_) => true
    case Called(c) => !c.wait.failed && !c.wait.sessionFails
    case SessionFails => false
  }

  /** Every reply a run brings, during calls and between them. */
  function Replies(events: seq<Event>): seq<bool> {
    if events == [] then []
    else
      var k := |events| - 1;
      Replies(events[..k])
      + (match events[k]
         case Replied(success) => [success]
         case Called(c) => c.wait.replies
         case SessionFails => [])
  }

  /** What the replies received so far mean for the request: the first one decides. */
  function Verdict(replies: seq<bool>): Result {
    if replies == [] then Again else if replies[0] then Ok else Error
  }

  function SlotFor(replies: seq<bool>): Slot {
    if replies == [] then Pending else if replies[0] then Accepted else Denied
  }

  // ---- Replies nobody waits for ----

  function MoreLate(t: Tally, n: nat): Tally {
    t.(late := t.late + n)
  }

  /** Replies to a slot that is not pending change nothing but the count of late replies. */
  lemma {:induction false} UnsolicitedChangesNothing(r: Req, replies: seq<bool>)
    requires !r.slot.Pending?
    ensures OnReplies(r, replies) == r.(tally := MoreLate(r.tally, |replies|))
    decreases |replies|
  {
    if replies != [] {
      UnsolicitedChangesNothing(OnReply(r, replies[0]), replies[1..]);
    }
  }

  /** The first reply to a pending slot decides it; all others are late. */
  function Counted(t: Tally, pending: bool, n: nat): Tally {
    if pending && n > 0 then MoreLate(t.(decided := t.decided + 1), n - 1) else MoreLate(t, n)
  }

  lemma {:induction false} RepliesDecide(r: Req, before: seq<bool>, replies: seq<bool>)
    requires r.slot == SlotFor(before)
    ensures OnReplies(r, replies)
            == r.(slot := SlotFor(before + replies), tally := Counted(r.tally, before == [], |replies|))
  {
    if before != [] || replies == [] {
      if before != [] {
        UnsolicitedChangesNothing(r, replies);
      }
    } else {
      UnsolicitedChangesNothing(OnReply(r, replies[0]), replies[1..]);
    }
  }

  // ---- One request, many calls ----

  /** A call made while the request sent earlier is being waited for, or has been answered already. */
  lemma CallDecides(r: Req, before: seq<bool>, c: Call)
    requires r.slot == SlotFor(before) && !r.sessionError && ErrorFree(Called(c))
    ensures
      var (r1, result) := Do(r, c);
      && result == Verdict(before + c.wait.replies)
      && r1.sent == r.sent && !r1.sessionError
      && r1.slot == (if result.Again? then SlotFor(before + c.wait.replies) else NoRequest)
  {
    RepliesDecide(r, before, c.wait.replies);
    if before != [] {
      assert (before + c.wait.replies)[0] == before[0];
    }
  }

  lemma FirstCall(r: Req, c: Call)
    requires r.slot.NoRequest? && !r.sessionError && c.request.wantReply && c.packOk && c.sendOk && ErrorFree(Called(c))
    ensures
      var (r1, result) := Do(r, c);
      && result == Verdict(c.wait.replies)
      && r1.sent == r.sent + [c.request] && !r1.sessionError
      && r1.slot == (if result.Again? then Pending else NoRequest)
  {
    RepliesDecide(Sent(r, c.request), [], c.wait.replies);
    assert [] + c.wait.replies == c.wait.replies;
  }

  /** `first` and then any replies and calls, all of which returned SSH_AGAIN. */
  ghost predicate StillTrying(r: Req, first: Call, later: seq<Event>) {
    && r.slot.NoRequest? && !r.sessionError
    && first.request.wantReply && first.packOk && first.sendOk && ErrorFree(Called(first))
    && (forall e :: e in later ==> ErrorFree(e))
    && (forall x :: x in Results(r, [Called(first)] + later) ==> x == Again)
  }

  lemma RunStep(r: Req, events: seq<Event>, e: Event)
    ensures Run(r, events + [e]) == After(Run(r, events), e)
    ensures Received(r, events + [e]) == Received(r, events) + Handled(Run(r, events), e)
    ensures Results(r, events + [e]) == Results(r, events) + (if e.Called? then [Do(Run(r, events), e.call).1] else [])
    ensures Replies(events + [e]) == Replies(events)
              + (match e case Replied(success) => [success] case Called(c) => c.wait.replies case SessionFails => [])
  {
    assert (events + [e])[..|events|] == events;
  }

  lemma {:induction false} TryingKeepsOne(r: Req, first: Call, later: seq<Event>)
    requires StillTrying(r, first, later)
    ensures
      var events := [Called(first)] + later;
      var r1 := Run(r, events);
      r1.sent == r.sent + [first.request] && !r1.sessionError && r1.slot == SlotFor(Replies(events))
    decreases |later|
  {
    if later == [] {
      assert [Called(first)] + later == [] + [Called(first)];
      RunStep(r, [], Called(first));
      FirstCall(r, first);
      assert Do(r, first).1 in Results(r, [] + [Called(first)]);
      assert [] + first.wait.replies == first.wait.replies;
    } else {
      var before, e := [Called(first)] + later[..|later| - 1], later[|later| - 1];
      assert [Called(first)] + later == before + [e];
      RunStep(r, before, e);
      assert forall x :: x in Results(r, before) ==> x in Results(r, before + [e]);
      TryingKeepsOne(r, first, later[..|later| - 1]);
      var r0 := Run(r, before);
      assert e in later;
      if e.Called? {
        CallDecides(r0, Replies(before), e.call);
        assert Do(r0, e.call).1 in Results(r, before + [e]);
      } else {
        RepliesDecide(r0, Replies(before), [e.success]);
        assert OnReplies(r0, [e.success]) == OnReply(r0, e.success);
      }
    }
  }

  /**
   * However often a call returned SSH_AGAIN and was made again, with whatever replies
   * in between: exactly one request packet was sent, and the next call returns what
   * the first of all replies says, or SSH_AGAIN if there was none. The retries need
   * not even name the same request: none of theirs is sent.
   */
  lemma OneRequestOneReply(r: Req, first: Call, later: seq<Event>, last: Call)
    requires StillTrying(r, first, later) && ErrorFree(Called(last))
    ensures
      var r1 := Run(r, [Called(first)] + later);
      var (r2, result) := Do(r1, last);
      && r2.sent == r.sent + [first.request]
      && result == Verdict(Replies([Called(first)] + later) + last.wait.replies)
      && (result != Again ==> r2.slot == NoRequest)
  {
    TryingKeepsOne(r, first, later);
    CallDecides(Run(r, [Called(first)] + later), Replies([Called(first)] + later), last);
  }

  // ---- Requests and replies, on every run ----

  /** The requests sent that ask for a reply. */
  function Wanting(sent: seq<Request>): nat {
    if sent == [] then 0 else Wanting(sent[..|sent| - 1]) + if sent[|sent| - 1].wantReply then 1 else 0
  }

  /** The replies an event hands to the slot: those of a call only if it gets to wait. */
  function Handled(r: Req, e: Event): nat {
    match e
    case Replied(_) => 1
    case Called(c) => if !r.sessionError && Waits(r, c) then |c.wait.replies| else 0
    case SessionFails => 0
  }

  predicate Waits(r: Req, c: Call) {
    r.slot.Pending? || (r.slot.NoRequest? && c.packOk && c.sendOk && c.request.wantReply)
  }

  /** All replies received in a run. */
  function Received(r: Req, events: seq<Event>): nat {
    if events == [] then 0
    else
      var k := |events| - 1;
      Received(r, events[..k]) + Handled(Run(r, events[..k]), events[k])
  }

  /** Every request, sent or not, was decided by a reply, was given up, or is pending. */
  ghost predicate Balanced(r: Req) {
    && !r.slot.Failed? && (r.tally.holder.Nobody? <==> r.slot.NoRequest?)
    && Wanting(r.sent) + r.tally.unsent == r.tally.decided + r.tally.abandoned + if r.slot.Pending? then 1 else 0
  }

  lemma {:induction false} RepliesKeep(r: Req, replies: seq<bool>)
    requires Balanced(r)
    ensures
      var r1 := OnReplies(r, replies);
      && Balanced(r1) && r1.tally.abandoned == r.tally.abandoned
      && r1.tally.decided + r1.tally.late == r.tally.decided + r.tally.late + |replies|
    decreases |replies|
  {
    if replies != [] {
      RepliesKeep(OnReply(r, replies[0]), replies[1..]);
    }
  }

  lemma WantingOneMore(sent: seq<Request>, request: Request)
    ensures Wanting(sent + [request]) == Wanting(sent) + if request.wantReply then 1 else 0
  {
    assert (sent + [request])[..|sent|] == sent;
  }

  lemma AwaitBalances(r: Req, w: Wait)
    requires Balanced(r) && !r.slot.NoRequest?
    ensures
      var r1 := AwaitReply(r, w).0;
      && Balanced(r1)
      && r1.tally.decided + r1.tally.late
         == r.tally.decided + r.tally.late + (if r.slot.Pending? && !r.sessionError then |w.replies| else 0)
      && (!r.sessionError && !w.failed && !w.sessionFails ==>
            r1.tally.abandoned == r.tally.abandoned && !r1.sessionError)
  {
    RepliesKeep(r, w.replies);
  }

  lemma CallBalances(r: Req, c: Call)
    requires Balanced(r)
    ensures
      var r1 := Do(r, c).0;
      && Balanced(r1)
      && r1.tally.decided + r1.tally.late == r.tally.decided + r.tally.late + Handled(r, Called(c))
      && (!r.sessionError && ErrorFree(Called(c)) ==> r1.tally.abandoned == r.tally.abandoned && !r1.sessionError)
  {
    WantingOneMore(r.sent, c.request);
    if !r.slot.NoRequest? {
      AwaitBalances(r, c.wait);
    } else if c.packOk && c.sendOk && c.request.wantReply {
      AwaitBalances(Sent(r, c.request), c.wait);
    }
  }

  /** In every run requests and replies add up, and without failed waits none is given up. */
  lemma {:induction false} RequestsAddUp(events: seq<Event>)
    ensures
      var r := Run(Fresh(), events);
      && Wanting(r.sent) + r.tally.unsent == r.tally.decided + r.tally.abandoned + (if r.slot.Pending? then 1 else 0)
      && r.tally.decided + r.tally.late == Received(Fresh(), events)
      && !r.slot.Failed? && (r.tally.holder.Nobody? <==> r.slot.NoRequest?)
      && ((forall e :: e in events ==> ErrorFree(e)) ==> r.tally.abandoned == 0 && !r.sessionError)
  {
    if events != [] {
      var before, e := events[..|events| - 1], events[|events| - 1];
      RequestsAddUp(before);
      assert forall x :: x in before ==> x in events;
      assert e in events;
      if e.Called? {
        CallBalances(Run(Fresh(), before), e.call);
      }
    }
  }

  /**
   * While no wait fails, at most one request is unanswered, however many requests are
   * made and sends fail. In general the excess is what was given up: at most one request
   * has had no reply decide it if and only if no more were given up than could not be
   * sent, one more if none is pending.
   */
  lemma AtMostOneOutstanding(events: seq<Event>)
    ensures
      var r := Run(Fresh(), events);
      && ((forall e :: e in events ==> ErrorFree(e)) ==> Wanting(r.sent) <= r.tally.decided + 1)
      && (Wanting(r.sent) <= r.tally.decided + 1
          <==> r.tally.abandoned <= r.tally.unsent + (if r.slot.Pending? then 0 else 1))
  {
    RequestsAddUp(events);
  }

  /**
   * A peer answers requests in the order it got them, so reply number n is for request
   * number n. This one is, if it decides the slot's own request.
   */
  ghost predicate AnswersOwn(r: Req, replyNumber: nat) {
    r.slot.Pending? && r.tally.holder.Out? && replyNumber == Wanting(r.sent)
  }

  /**
   * The next reply answers the request it decides if and only if that request was sent
   * and as many requests were given up as replies came late and requests were not sent.
   */
  lemma ReplyAnswersOwn(events: seq<Event>)
    ensures
      var r := Run(Fresh(), events);
      r.slot.Pending? ==>
        (AnswersOwn(r, Received(Fresh(), events) + 1)
         <==> r.tally.holder.Out? && r.tally.abandoned == r.tally.late + r.tally.unsent)
  {
    RequestsAddUp(events);
  }

  /** Sends and waits succeed, and the peer never sends more replies than it got requests. */
  ghost predicate InStep(events: seq<Event>) {
    && (forall e :: e in events ==> ErrorFree(e) && (e.Called? ==> e.call.sendOk))
    && (forall n :: 0 <= n <= |events| ==> NoMoreReplies(events[..n]))
  }

  ghost predicate NoMoreReplies(events: seq<Event>) {
    Received(Fresh(), events) <= Wanting(Run(Fresh(), events).sent)
  }

  lemma {:induction false} InStepNeverLate(events: seq<Event>)
    requires InStep(events)
    ensures
      var r := Run(Fresh(), events);
      r.tally.late == 0 && r.tally.unsent == 0 && r.tally.abandoned == 0 && (r.slot.Pending? ==> r.tally.holder.Out?)
  {
    RequestsAddUp(events);
    assert events[..|events|] == events && NoMoreReplies(events);
    if events != [] {
      var k := |events| - 1;
      var before, e := events[..k], events[k];
      assert InStep(before) by {
        forall n | 0 <= n <= |before| ensures NoMoreReplies(before[..n]) {
          assert before[..n] == events[..n];
        }
      }
      InStepNeverLate(before);
      assert e in events;
      KeepsOwn(Run(Fresh(), before), e);
    }
  }

  lemma {:induction false} RepliesKeepOwn(r: Req, replies: seq<bool>)
    ensures
      var t := OnReplies(r, replies).tally;
      && t.holder == r.tally.holder && t.unsent == r.tally.unsent && OnReplies(r, replies).sent == r.sent
      && (OnReplies(r, replies).slot.Pending? ==> r.slot.Pending? && replies == [])
    decreases |replies|
  {
    if replies != [] {
      RepliesKeepOwn(OnReply(r, replies[0]), replies[1..]);
    }
  }

  lemma KeepsOwn(r: Req, e: Event)
    requires (r.slot.Pending? ==> r.tally.holder.Out?) && (e.Called? ==> e.call.sendOk)
    ensures
      var r1 := After(r, e);
      && r1.tally.unsent == r.tally.unsent
      && (r1.slot.Pending? ==> r1.tally.holder.Out? && r1.tally.late == r.tally.late)
  {
    if e.Called? {
      RepliesKeepOwn(r, e.call.wait.replies);
      RepliesKeepOwn(Sent(r, e.call.request), e.call.wait.replies);
    }
  }

  lemma NothingAmiss(r: Req, received: nat)
    requires Balanced(r) && r.slot.Pending? && r.tally.holder.Out? && received == r.tally.decided + r.tally.late
    requires r.tally.late == 0 && r.tally.unsent == 0 && r.tally.abandoned == 0
    ensures AnswersOwn(r, received + 1)
  {
  }

  /** Then every reply decides the request it answers. */
  lemma RepliesInStep(events: seq<Event>)
    requires InStep(events)
    ensures
      var r := Run(Fresh(), events);
      r.slot.Pending? ==> AnswersOwn(r, Received(Fresh(), events) + 1)
  {
    var r := Run(Fresh(), events);
    InStepNeverLate(events);
    RequestsAddUp(events);
    if r.slot.Pending? {
      NothingAmiss(r, Received(Fresh(), events));
    }
  }

  // ---- Runs in which they get out of step ----

  /** A wait that fails although the session lives, as when memory runs out. */
  function GivenUp(request: Request): Call {
    Call(request, true, true, Wait([], true, false))
  }

  lemma GivingUp(r: Req, x: Request)
    requires r.slot.NoRequest? && !r.sessionError && x.wantReply
    ensures
      var r1 := Do(r, GivenUp(x)).0;
      && r1.slot.NoRequest? && !r1.sessionError && r1.sent == r.sent + [x]
      && r1.tally.decided == r.tally.decided && r1.tally.late == r.tally.late
    ensures Handled(r, Called(GivenUp(x))) == 0
  {
  }

  /** Two calls given up leave two requests sent and no reply received. */
  lemma TwoOutstanding(x: Request, y: Request)
    requires x.wantReply && y.wantReply
    ensures
      var events := [Called(GivenUp(x))] + [Called(GivenUp(y))];
      var r := Run(Fresh(), events);
      r.sent == [x] + [y] && Wanting(r.sent) == 2 && r.tally.decided == 0 && Received(Fresh(), events) == 0
  {
    var first := [] + [Called(GivenUp(x))];
    assert first == [Called(GivenUp(x))];
    RunStep(Fresh(), [], Called(GivenUp(x)));
    RunStep(Fresh(), first, Called(GivenUp(y)));
    GivingUp(Fresh(), x);
    GivingUp(Run(Fresh(), first), y);
    assert [] + [x] == [x];
    WantingOneMore([], x);
    WantingOneMore([x], y);
  }

  /** After a request was given up, its late reply is taken for the answer to the next one. */
  lemma LateReplyAnswersNext(r: Req, x: Request, y: Request, success: bool)
    requires r.slot.NoRequest? && !r.sessionError && x.wantReply && y.wantReply
    ensures
      var r1 := Do(r, GivenUp(x)).0;
      var (r2, result) := Do(r1, Call(y, true, true, Wait([success], false, false)));
      r2.sent == r.sent + [x] + [y] && result == if success then Ok else Error
  {
    assert OnReplies(Sent(Do(r, GivenUp(x)).0, y), [success])
        == OnReply(Sent(Do(r, GivenUp(x)).0, y), success);
  }

  // ---- The result of one call ----

  /** A call on a free slot that does not get to wait: not packed, not sent, or no reply wanted. */
  lemma UnwaitedExactly(r: Req, c: Call)
    requires r.slot == NoRequest && !(c.packOk && c.sendOk && c.request.wantReply)
    ensures
      var (r1, result) := Do(r, c);
      && (result == Ok <==> c.packOk && c.sendOk) && result != Again
      && (!c.packOk ==> r1 == r)
      && (c.packOk && !c.sendOk ==> r1.slot == Pending && r1.sent == r.sent && r1.sessionError == r.sessionError)
      && (c.packOk && c.sendOk ==> r1 == r.(sent := r.sent + [c.request]))
  {
  }

  /** A call that waits: the first reply decides, unless handling fails or the session breaks. */
  lemma WaitedExactly(r: Req, c: Call)
    requires Waits(r, c) && !r.sessionError
    ensures
      var (r1, result) := Do(r, c);
      var w := c.wait;
      && (result == Ok <==> !w.failed && !w.sessionFails && w.replies != [] && w.replies[0])
      && (result == Again <==> !w.failed && !w.sessionFails && w.replies == [])
      && r1.sessionError == w.sessionFails && (r1.slot == if result == Again then Pending else NoRequest)
  {
    var r0 := if r.slot.NoRequest? then Sent(r, c.request) else r;
    RepliesDecide(r0, [], c.wait.replies);
    assert [] + c.wait.replies == c.wait.replies;
  }

  /** A call that finds its answer already there, or the session broken, does not wait. */
  lemma AnsweredExactly(r: Req, c: Call)
    requires r.slot == Accepted || r.slot == Denied || (Waits(r, c) && r.sessionError)
    ensures
      var (r1, result) := Do(r, c);
      && (result == Ok <==> r.slot == Accepted && !r.sessionError) && result != Again
      && r1.slot == NoRequest && r1.sessionError == r.sessionError
  {
  }

  // ---- Which request a result is about ----

  /** A call sends its packet if and only if it finds the slot free and can pack and send it. */
  lemma PacketSent(r: Req, c: Call)
    ensures Do(r, c).0.sent == r.sent + (if r.slot.NoRequest? && c.packOk && c.sendOk then [c.request] else [])
  {
    RepliesKeepOwn(r, c.wait.replies);
    RepliesKeepOwn(Sent(r, c.request), c.wait.replies);
    assert r.sent + [] == r.sent;
  }

  /** The call of a run whose request holds the slot at its end, by its position. */
  function HolderAt(events: seq<Event>): Option<nat> {
    if events == [] || Run(Fresh(), events).slot.NoRequest? then None
    else
      var k := |events| - 1;
      if Run(Fresh(), events[..k]).slot.NoRequest? then Some(k) else HolderAt(events[..k])
  }

  /** The slot is held by the request of event `k`, a call that found it free; nothing was sent since. */
  ghost predicate HeldSince(events: seq<Event>, k: nat) {
    && k < |events| && events[k].Called?
    && Run(Fresh(), events[..k]).slot.NoRequest?
    && var r, c := Run(Fresh(), events), events[k].call;
      && r.tally.holder == (if c.sendOk then Out(c.request) else Stuck(c.request))
      && r.sent == Run(Fresh(), events[..k]).sent + (if c.sendOk then [c.request] else [])
  }

  lemma TakesSlot(r: Req, e: Event)
    requires Balanced(r) && r.slot.NoRequest? && !After(r, e).slot.NoRequest?
    ensures e.Called?
    ensures After(r, e).tally.holder == (if e.call.sendOk then Out(e.call.request) else Stuck(e.call.request))
    ensures After(r, e).sent == r.sent + (if e.call.sendOk then [e.call.request] else [])
  {
    if e.Called? {
      PacketSent(r, e.call);
      RepliesKeepOwn(Sent(r, e.call.request), e.call.wait.replies);
    }
  }

  lemma KeepsSlot(r: Req, e: Event)
    requires !r.slot.NoRequest? && !After(r, e).slot.NoRequest?
    ensures After(r, e).tally.holder == r.tally.holder && After(r, e).sent == r.sent
  {
    if e.Called? {
      PacketSent(r, e.call);
      RepliesKeepOwn(r, e.call.wait.replies);
    }
  }

  /** In every run the slot is in use exactly if it is held, and then by the call that found it free last. */
  lemma {:induction false} SlotIsHeld(events: seq<Event>)
    ensures HolderAt(events).None? <==> Run(Fresh(), events).slot.NoRequest?
    ensures HolderAt(events).Some? ==> HeldSince(events, HolderAt(events).value)
  {
    if events != [] && !Run(Fresh(), events).slot.NoRequest? {
      var before, e := events[..|events| - 1], events[|events| - 1];
      var r := Run(Fresh(), before);
      assert Run(Fresh(), events) == After(r, e);
      RequestsAddUp(before);
      SlotIsHeld(before);
      if r.slot.NoRequest? {
        TakesSlot(r, e);
      } else {
        KeepsSlot(r, e);
        var k := HolderAt(before).value;
        assert events[..k] == before[..k] && events[k] == before[k];
      }
    }
  }

  /** The request a result reports on: none with SSH_AGAIN, else the one that holds the slot, or the call's own. */
  ghost function Subject(events: seq<Event>, c: Call): Option<Request>
    requires HolderAt(events).Some? ==> HeldSince(events, HolderAt(events).value)
  {
    if Do(Run(Fresh(), events), c).1.Again? then None
    else
      match HolderAt(events)
      case None => Some(c.request)
      case Some(k) => Some(events[k].call.request)
  }

  /** A call that finds the slot in use does the same whatever request it names. */
  lemma NameDoesNotMatter(r: Req, c: Call, d: Call)
    requires !r.slot.NoRequest? && c.wait == d.wait
    ensures Do(r, c) == Do(r, d) && Do(r, c).0.sent == r.sent
  {
    PacketSent(r, c);
    assert r.sent + [] == r.sent;
  }

  /**
   * In every run: a result other than SSH_AGAIN is about the call's own request if and
   * only if the slot was free at the call or held by that same request. In a slot in use the
   * call sends nothing, and its result is that of a call for the request that holds it.
   */
  lemma ResultIsOwn(events: seq<Event>, c: Call)
    ensures HolderAt(events).Some? ==> HeldSince(events, HolderAt(events).value)
    ensures
      var r := Run(Fresh(), events);
      var (r1, result) := Do(r, c);
      && (!result.Again? ==>
            (Subject(events, c) == Some(c.request)
             <==> r.slot.NoRequest? || r.tally.holder == Out(c.request) || r.tally.holder == Stuck(c.request)))
      && (!r.slot.NoRequest? ==>
            && (forall q :: Do(r, c.(request := q)) == Do(r, c))
            && r1.sent == r.sent
            && (result.Again? <==> !r1.slot.NoRequest?))
  {
    SlotIsHeld(events);
    var r := Run(Fresh(), events);
    RequestsAddUp(events);
    if !r.slot.NoRequest? {
      NameDoesNotMatter(r, c, c);
      forall q ensures Do(r, c.(request := q)) == Do(r, c) {
        NameDoesNotMatter(r, c.(request := q), c);
      }
    }
  }

  /**
   * A call made while another request is pending, or answered but not yet reported, sends
   * nothing and returns what the first reply says about that one.
   */
  lemma TakesOverReply(r: Req, before: seq<bool>, c: Call)
    requires r.slot == SlotFor(before) && !r.sessionError && ErrorFree(Called(c))
    ensures
      var (r1, result) := Do(r, c);
      && result == Verdict(before + c.wait.replies) && r1.sent == r.sent
      && (result.Again? <==> !r1.slot.NoRequest?)
  {
    CallDecides(r, before, c);
  }

  // ---- When the packet could not be sent ----

  lemma {:induction false} SlotStaysHeld(r: Req, later: seq<Event>)
    requires r.slot.Pending? && !r.sessionError && (forall e :: e in later ==> ErrorFree(e))
    requires forall x :: x in Results(r, later) ==> x == Again
    ensures
      var r1 := Run(r, later);
      r1.sent == r.sent && !r1.sessionError && r1.slot == SlotFor(Replies(later))
    decreases |later|
  {
    if later != [] {
      var before, e := later[..|later| - 1], later[|later| - 1];
      assert later == before + [e] && e in later;
      RunStep(r, before, e);
      assert forall x :: x in Results(r, before) ==> x in Results(r, later);
      SlotStaysHeld(r, before);
      var r0 := Run(r, before);
      if e.Called? {
        CallDecides(r0, Replies(before), e.call);
        assert Do(r0, e.call).1 in Results(r, later);
      } else {
        RepliesDecide(r0, Replies(before), [e.success]);
        assert OnReplies(r0, [e.success]) == OnReply(r0, e.success);
      }
    }
  }

  /**
   * After a failed send the slot stays in use: however many calls return SSH_AGAIN and
   * whatever replies come, no retry sends anything, and the next call returns what the first
   * stray reply says. A stray success makes it SSH_OK for a request that was never sent.
   */
  lemma FailedSendIsNotRetried(r: Req, first: Call, later: seq<Event>, last: Call)
    requires r.slot.NoRequest? && !r.sessionError && first.packOk && !first.sendOk
    requires (forall e :: e in later ==> ErrorFree(e)) && ErrorFree(Called(last))
    requires forall x :: x in Results(Do(r, first).0, later) ==> x == Again
    ensures
      var (r0, error) := Do(r, first);
      var r1 := Run(r0, later);
      var (r2, result) := Do(r1, last);
      var replies := Replies(later) + last.wait.replies;
      && error == Error && r1.sent == r2.sent == r.sent && r1.slot == SlotFor(Replies(later))
      && result == Verdict(replies)
      && (result == Ok <==> replies != [] && replies[0])
  {
    var r0 := Do(r, first).0;
    SlotStaysHeld(r0, later);
    CallDecides(Run(r0, later), Replies(later), last);
  }
}
