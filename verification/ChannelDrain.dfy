/** What a CLOSE from the peer leaves to be read, and who gets it. */
module ChannelDrain {
  import opened Octets
  import opened ChannelSpec
  import opened ChannelPair
  import opened ChannelInvariants
  import opened ChannelBooks
  import opened ChannelTheorems

  /** The peer closed, this end did not: the state is CLOSED exactly when nothing is left to read. */
  ghost predicate Draining(c: Chan) {
    && c.flags.closedRemote && c.flags.remoteEof && !c.flags.closedLocal && !c.flags.sessionError
    && (c.state.Open? || c.state.Closed?)
    && (c.state.Closed? <==> !c.HasUnread())
    && (c.state.Open? ==> c.flags.delayedClose)
    && c.Reserved() <= WINDOW_DEFAULT
  }

  /** The first n bytes, or all if there are fewer, and what follows them. */
  function Front(b: seq<byte>, n: nat): seq<byte> {
    b[..Min(n, |b|)]
  }

  function Back(b: seq<byte>, n: nat): seq<byte> {
    b[Min(n, |b|)..]
  }

  /** `sendOk` is the outcome of the window adjust, if the read needs one. */
  datatype Call = Call(stream: Stream, count: nat, sendOk: bool)

  function After(c: Chan, call: Call): Reading {
    Read(c, call.stream, call.count, call.sendOk)
  }

  /** The call takes nothing, needs no adjust, or can send it. */
  predicate AdjustSent(c: Chan, call: Call) {
    Front(c.Buffer(call.stream), call.count) == [] || call.sendOk || !NeedsAdjust(c, call.stream, call.count)
  }

  /**
   * One read of a closed channel takes the front of the buffer, and returns it or, once
   * it is drained, 0; the only error is that of an adjust that cannot be sent.
   */
  lemma DrainingRead(c: Chan, call: Call)
    requires Draining(c)
    ensures
      var x := After(c, call);
      && x.result == (if AdjustSent(c, call) then Got(Front(c.Buffer(call.stream), call.count)) else Error)
      && x.chan.Buffer(call.stream) == Back(c.Buffer(call.stream), call.count)
      && (forall t :: t != call.stream ==> x.chan.Buffer(t) == c.Buffer(t))
      && Draining(x.chan)
  {
    ReadEffect(c, call.stream, call.count, call.sendOk);
    ReadReturnsTaken(c, call.stream, call.count, call.sendOk);
  }

  /** A call that drains its stream but cannot send its adjust: an error, and after it end of file. */
  lemma ErrorThenEndOfFile(c: Chan, call: Call, count: nat, sendOk: bool)
    requires Draining(c) && !AdjustSent(c, call) && call.count >= |c.Buffer(call.stream)| && count > 0
    ensures
      var x := After(c, call);
      && x.result == Error && x.taken == c.Buffer(call.stream) != []
      && Read(x.chan, call.stream, count, sendOk).result == Got([])
  {
    DrainingRead(c, call);
    ReadReturnsTaken(c, call.stream, call.count, call.sendOk);
    DrainingRead(After(c, call).chan, Call(call.stream, count, sendOk));
  }

  function AfterCalls(c: Chan, calls: seq<Call>): Chan
    decreases |calls|
  {
    if calls == [] then c else AfterCalls(After(c, calls[0]).chan, calls[1..])
  }

  /** What the calls of a sequence that read stream `s` return, one after the other. */
  function Returned(c: Chan, calls: seq<Call>, s: Stream): seq<byte>
    decreases |calls|
  {
    if calls == [] then []
    else if calls[0].stream == s then After(c, calls[0]).Returned() + Returned(After(c, calls[0]).chan, calls[1..], s)
    else Returned(After(c, calls[0]).chan, calls[1..], s)
  }

  predicate AllSent(c: Chan, calls: seq<Call>)
    decreases |calls|
  {
    calls == [] || (AdjustSent(c, calls[0]) && AllSent(After(c, calls[0]).chan, calls[1..]))
  }

  /** The bytes the calls ask for on one stream. */
  function Wanted(calls: seq<Call>, s: Stream): nat {
    if calls == [] then 0 else (if calls[0].stream == s then calls[0].count else 0) + Wanted(calls[1..], s)
  }

  lemma TakeTwice(b: seq<byte>, m: nat, n: nat)
    ensures Front(b, m) + Front(Back(b, m), n) == Front(b, m + n)
    ensures Back(Back(b, m), n) == Back(b, m + n)
  {
  }

  /** What the calls on one stream take off a buffer, one after the other. */
  function TakenOff(b: seq<byte>, calls: seq<Call>, s: Stream): seq<byte>
    decreases |calls|
  {
    if calls == [] then []
    else if calls[0].stream == s then Front(b, calls[0].count) + TakenOff(Back(b, calls[0].count), calls[1..], s)
    else TakenOff(b, calls[1..], s)
  }

  /** What the calls on one stream leave of a buffer. */
  function LeftOf(b: seq<byte>, calls: seq<Call>, s: Stream): seq<byte>
    decreases |calls|
  {
    if calls == [] then b
    else LeftOf(if calls[0].stream == s then Back(b, calls[0].count) else b, calls[1..], s)
  }

  lemma {:induction false} TakenOffIsFront(b: seq<byte>, calls: seq<Call>, s: Stream)
    ensures TakenOff(b, calls, s) == Front(b, Wanted(calls, s))
    ensures LeftOf(b, calls, s) == Back(b, Wanted(calls, s))
    decreases |calls|
  {
    if calls != [] {
      if calls[0].stream == s {
        TakenOffIsFront(Back(b, calls[0].count), calls[1..], s);
        TakeTwice(b, calls[0].count, Wanted(calls[1..], s));
      } else {
        TakenOffIsFront(b, calls[1..], s);
      }
    }
  }

  lemma {:induction false} ReadsKeepDraining(c: Chan, calls: seq<Call>)
    requires Draining(c)
    ensures Draining(AfterCalls(c, calls))
    decreases |calls|
  {
    if calls != [] {
      DrainingRead(c, calls[0]);
      ReadsKeepDraining(After(c, calls[0]).chan, calls[1..]);
    }
  }

  lemma {:induction false} ReadsLeave(c: Chan, calls: seq<Call>, s: Stream)
    requires Draining(c)
    ensures AfterCalls(c, calls).Buffer(s) == LeftOf(c.Buffer(s), calls, s)
    decreases |calls|
  {
    if calls != [] {
      DrainingRead(c, calls[0]);
      ReadsLeave(After(c, calls[0]).chan, calls[1..], s);
    }
  }

  lemma {:induction false} ReadsTakeOff(c: Chan, calls: seq<Call>, s: Stream)
    requires Draining(c) && AllSent(c, calls)
    ensures Returned(c, calls, s) == TakenOff(c.Buffer(s), calls, s)
    decreases |calls|
  {
    if calls != [] {
      var x := After(c, calls[0]);
      DrainingRead(c, calls[0]);
      ReadsTakeOff(x.chan, calls[1..], s);
      if calls[0].stream == s {
        assert x.Returned() == Front(c.Buffer(s), calls[0].count);
      } else {
        assert x.chan.Buffer(s) == c.Buffer(s);
      }
    }
  }

  /** The bytes the calls take off both buffers. */
  function Taken(c: Chan, calls: seq<Call>): nat {
    |TakenOff(c.stdout, calls, Stdout)| + |TakenOff(c.stderr, calls, Stderr)|
  }

  function ReturnedLength(c: Chan, calls: seq<Call>): nat {
    |Returned(c, calls, Stdout)| + |Returned(c, calls, Stderr)|
  }

  lemma TakenStep(c: Chan, calls: seq<Call>)
    requires Draining(c) && calls != []
    ensures Taken(c, calls)
            == |Front(c.Buffer(calls[0].stream), calls[0].count)| + Taken(After(c, calls[0]).chan, calls[1..])
  {
    DrainingRead(c, calls[0]);
    var c1 := After(c, calls[0]).chan;
    if calls[0].stream.Stdout? {
      assert c1.Buffer(Stderr) == c.Buffer(Stderr);
    } else {
      assert c1.Buffer(Stdout) == c.Buffer(Stdout);
    }
  }

  lemma ReturnedStep(c: Chan, calls: seq<Call>)
    requires calls != []
    ensures ReturnedLength(c, calls)
            == |After(c, calls[0]).Returned()| + ReturnedLength(After(c, calls[0]).chan, calls[1..])
  {
  }

  /** Over both streams the calls return no more than they take, and less once an adjust is not sent. */
  lemma {:induction false} ReadsHide(c: Chan, calls: seq<Call>)
    requires Draining(c)
    ensures ReturnedLength(c, calls) <= Taken(c, calls)
    ensures AllSent(c, calls) <==> ReturnedLength(c, calls) == Taken(c, calls)
    decreases |calls|
  {
    if calls != [] {
      DrainingRead(c, calls[0]);
      TakenStep(c, calls);
      ReturnedStep(c, calls);
      ReadsHide(After(c, calls[0]).chan, calls[1..]);
    }
  }

  /**
   * Any sequence of reads, mixing both streams in any way, takes exactly the buffered
   * bytes, in order; they are what the calls return if and only if each adjust that was
   * needed was sent.
   */
  lemma DrainsExactly(c: Chan, calls: seq<Call>)
    requires Draining(c)
    ensures Draining(AfterCalls(c, calls))
    ensures forall s :: AfterCalls(c, calls).Buffer(s) == Back(c.Buffer(s), Wanted(calls, s))
    ensures (forall s :: Returned(c, calls, s) == Front(c.Buffer(s), Wanted(calls, s))) <==> AllSent(c, calls)
  {
    ReadsKeepDraining(c, calls);
    forall s ensures AfterCalls(c, calls).Buffer(s) == Back(c.Buffer(s), Wanted(calls, s)) {
      ReadsLeave(c, calls, s);
      TakenOffIsFront(c.Buffer(s), calls, s);
    }
    if AllSent(c, calls) {
      forall s ensures Returned(c, calls, s) == Front(c.Buffer(s), Wanted(calls, s)) {
        ReadsTakeOff(c, calls, s);
        TakenOffIsFront(c.Buffer(s), calls, s);
      }
    }
    if forall s :: Returned(c, calls, s) == Front(c.Buffer(s), Wanted(calls, s)) {
      NothingHidden(c, calls);
    }
  }

  lemma NothingHidden(c: Chan, calls: seq<Call>)
    requires Draining(c) && forall s :: Returned(c, calls, s) == Front(c.Buffer(s), Wanted(calls, s))
    ensures AllSent(c, calls)
  {
    ReadsHide(c, calls);
    TakenOffIsFront(c.stdout, calls, Stdout);
    TakenOffIsFront(c.stderr, calls, Stderr);
    assert Returned(c, calls, Stdout) == Front(c.Buffer(Stdout), Wanted(calls, Stdout));
    assert Returned(c, calls, Stderr) == Front(c.Buffer(Stderr), Wanted(calls, Stderr));
  }

  /**
   * In every run, an end that received CLOSE and has not closed: what its reads returned
   * so far and will return is all the peer ever wrote, if and only if no packet was
   * dropped, no adjust has failed, and none will.
   */
  lemma CloseLosesNothing(l: Offer, r: Offer, steps: seq<(Side, Action)>, calls: seq<Call>)
    requires Offered(l, r)
    requires
      var c := Run(Start(l, r), steps).right.chan;
      && c.flags.closedRemote && !c.flags.closedLocal && !c.flags.sessionError
      && forall s :: Wanted(calls, s) >= |c.Buffer(s)|
    ensures
      var y := Run(Start(l, r), steps);
      var c := y.right.chan;
      && y.out.flight == []
      && ((forall s :: y.out.Returned(s) + Returned(c, calls, s) == y.out.Wrote(s))
          <==> !y.out.ledger.dropped && !y.out.ledger.growFailed && AllSent(c, calls))
  {
    Reached(l, r, steps);
    var y := Run(Start(l, r), steps);
    NothingAfterClose(y.left, y.right, y.out);
    assert y.out.Sent() == y.out.received;
    assert Draining(y.right.chan);
    if forall s :: y.out.Returned(s) + Returned(y.right.chan, calls, s) == y.out.Wrote(s) {
      BalanceNeeds(y, calls);
    }
    if !y.out.ledger.dropped && !y.out.ledger.growFailed && AllSent(y.right.chan, calls) {
      BalanceHolds(y, calls);
    }
  }

  /** The peer's bytes of both streams, all delivered, against what was and will be returned. */
  ghost predicate Drainable(y: System, calls: seq<Call>) {
    && Inv(y) && Books(y) && y.out.flight == [] && Draining(y.right.chan)
    && forall s :: Wanted(calls, s) >= |y.right.chan.Buffer(s)|
  }

  lemma {:induction false} BalanceNeeds(y: System, calls: seq<Call>)
    requires Drainable(y, calls)
    requires forall s :: y.out.Returned(s) + Returned(y.right.chan, calls, s) == y.out.Wrote(s)
    ensures !y.out.ledger.dropped && !y.out.ledger.growFailed && AllSent(y.right.chan, calls)
  {
    var c, d := y.right.chan, y.out;
    assert d.Sent() == d.received;
    LoadIsPayload(d.received);
    ReadsHide(c, calls);
    TakenOffIsFront(c.stdout, calls, Stdout);
    TakenOffIsFront(c.stderr, calls, Stderr);
    assert Wanted(calls, Stdout) >= |c.Buffer(Stdout)| && Wanted(calls, Stderr) >= |c.Buffer(Stderr)|;
    assert |d.Returned(Stdout)| + |Returned(c, calls, Stdout)| == |d.Wrote(Stdout)|;
    assert |d.Returned(Stderr)| + |Returned(c, calls, Stderr)| == |d.Wrote(Stderr)|;
  }

  lemma {:induction false} BalanceHolds(y: System, calls: seq<Call>)
    requires Drainable(y, calls)
    requires !y.out.ledger.dropped && !y.out.ledger.growFailed && AllSent(y.right.chan, calls)
    ensures forall s :: y.out.Returned(s) + Returned(y.right.chan, calls, s) == y.out.Wrote(s)
  {
    var c, d := y.right.chan, y.out;
    assert d.Sent() == d.received;
    DrainsExactly(c, calls);
    forall s ensures d.Returned(s) + Returned(c, calls, s) == d.Wrote(s) {
      assert Front(c.Buffer(s), Wanted(calls, s)) == c.Buffer(s);
      assert d.Took(s) + c.Buffer(s) == PayloadOf(d.received, s);
    }
  }
}
