/** How a channel ends: who sends CLOSE, when it is deallocated, and what falls short of that. */
module ChannelClosing {
  import opened ChannelSpec
  import opened ChannelPair
  import opened ChannelInvariants
  import opened ChannelTheorems

  ghost function Closes(q: seq<Packet>): nat {
    if q == [] then 0 else (if q[0].Close? then 1 else 0) + Closes(q[1..])
  }

  lemma {:induction false} AtMostOneClose(strict: bool, q: seq<Packet>)
    requires InOrder(strict, q)
    ensures Closes(q) == if Close in q then 1 else 0
  {
    if q != [] {
      assert InOrder(strict, q[1..]) by {
        forall i, j | 0 <= i < j < |q[1..]| ensures MayFollow(strict, q[1..][i], q[1..][j]) {
          assert q[1..][i] == q[i + 1] && q[1..][j] == q[j + 1];
        }
      }
      AtMostOneClose(strict, q[1..]);
      if |q| > 1 {
        NotClose(strict, q, 0, 1);
      }
      assert q == [q[0]] + q[1..];
    }
  }

  /** Each end sends CLOSE at most once, and nothing for the channel after it. */
  lemma CloseIsLast(l: Offer, r: Offer, steps: seq<(Side, Action)>)
    requires Offered(l, r)
    ensures
      var y := Run(Start(l, r), steps);
      && Closes(y.out.Sent()) == (if y.left.chan.flags.closedLocal then 1 else 0)
      && (forall i :: 0 <= i < |y.out.Sent()| - 1 ==> !y.out.Sent()[i].Close?)
  {
    Reached(l, r, steps);
    var y := Run(Start(l, r), steps);
    var q := y.out.Sent();
    assert Close in q <==> y.left.chan.flags.closedLocal;
    AtMostOneClose(!y.left.eofUnrecorded, q);
    assert Closes(q) == (if y.left.chan.flags.closedLocal then 1 else 0);
    forall i | 0 <= i < |q| - 1 ensures !q[i].Close? {
      NotClose(!y.left.eofUnrecorded, q, i, i + 1);
    }
  }

  /**
   * A channel is deallocated at most once, only after it was freed and the peer's
   * CLOSE arrived; from then on nothing addressed to it is under way. Its own CLOSE was
   * sent by then if and only if the freeing call got through its EOF, the flush of that
   * and its CLOSE.
   */
  lemma ReleaseIsSafe(l: Offer, r: Offer, steps: seq<(Side, Action)>)
    requires Offered(l, r)
    ensures
      var y := Run(Start(l, r), steps);
      && y.out.ledger.releases == (if y.right.chan.flags.released then 1 else 0)
      && (y.right.chan.flags.released ==>
            && y.right.chan.flags.freedLocal
            && y.left.chan.flags.closedLocal
            && (y.right.chan.flags.closedLocal <==> !y.right.freeFailed)
            && Close in y.out.received
            && y.out.flight == [])
  {
    Reached(l, r, steps);
    var y := Run(Start(l, r), steps);
    NothingAfterClose(y.left, y.right, y.out);
    ReceivedWasSent(y.out, Close);
  }

  lemma ReceivedWasSent(f: Flow, p: Packet)
    ensures p in f.received ==> p in f.Sent()
  {
  }

  /** A freed channel sent CLOSE if and only if the freeing call did not fail on the way to it. */
  lemma FreedSentClose(l: Offer, r: Offer, steps: seq<(Side, Action)>)
    requires Offered(l, r)
    ensures
      var y := Run(Start(l, r), steps);
      && (y.left.pc.Gone? ==> (Close in y.out.Sent() <==> !y.left.freeFailed))
      && (!y.left.pc.Gone? ==> !y.left.freeFailed)
  {
    Reached(l, r, steps);
  }

  /**
   * When nothing is in flight to it, a freed channel is deallocated exactly if the peer's
   * CLOSE was sent; if the peer freed its end too, exactly if that call did not fail.
   */
  lemma FreedMeansReleased(l: Offer, r: Offer, steps: seq<(Side, Action)>)
    requires Offered(l, r)
    ensures
      var y := Run(Start(l, r), steps);
      y.out.flight == [] && y.right.pc.Gone? ==>
        && (y.right.chan.flags.released <==> y.left.chan.flags.closedLocal)
        && (y.left.pc.Gone? ==> (y.right.chan.flags.released <==> !y.left.freeFailed))
  {
    Reached(l, r, steps);
    var y := Run(Start(l, r), steps);
    assert y.out.flight == [] ==> y.out.Sent() == y.out.received;
  }

  // ---- Runs that fall short ----

  /**
   * A freeing call whose EOF cannot be sent, whose EOF flush returns SSH_AGAIN or fails, or
   * whose CLOSE cannot be sent, leaves the channel freed without a CLOSE, at every offer.
   */
  lemma FreedWithoutClose(l: Offer, r: Offer, flush: Rc, sendOk: bool)
    ensures
      var y := Step(Start(l, r), Left, FreeCall(false));
      WithoutClose(y) && y.out.flight == []
    ensures
      var y := Step(Step(Start(l, r), Left, FreeCall(true)), Left, Flushed(flush, sendOk));
      !flush.RcOk? ==> WithoutClose(y) && y.out.flight == [Eof]
    ensures
      var y := Step(Step(Start(l, r), Left, FreeCall(true)), Left, Flushed(RcOk, false));
      var z := Step(y, Left, Flushed(flush, sendOk));
      WithoutClose(z) && z.out.flight == [Eof]
  {
  }

  predicate WithoutClose(y: System) {
    y.left.pc.Gone? && y.left.freeFailed && !y.left.chan.flags.closedLocal
  }

  /** The left end frees its channel, which cannot send its EOF; the right end frees its own. */
  function OneSided(l: Offer, r: Offer): System {
    var y1 := Step(Step(Start(l, r), Left, FreeCall(false)), Right, FreeCall(true));
    var y2 := Step(Step(y1, Right, Flushed(RcOk, true)), Right, Flushed(RcOk, true));
    Step(Step(y2, Left, Deliver(true)), Left, Deliver(true))
  }

  lemma {:induction false} StepKeeps(y: System, side: Side, a: Action)
    requires Inv(y)
    ensures Inv(Step(y, side, a))
  {
    if side.Left? {
      StepLeftKeeps(y, a);
    } else {
      StepLeftKeeps(y.Swap(), a);
    }
  }

  lemma GoneStep(y: System, a: Action)
    ensures y.left.pc.Gone? ==> StepLeft(y, a).left.pc.Gone? && StepLeft(y, a).left.freeFailed == y.left.freeFailed
    ensures StepLeft(y, a).right == y.right
  {
  }

  lemma {:induction false} GoneStays(y: System, steps: seq<(Side, Action)>)
    requires y.left.pc.Gone?
    ensures Run(y, steps).left.pc.Gone? && Run(y, steps).left.freeFailed == y.left.freeFailed
    decreases |steps|
  {
    if steps != [] {
      if steps[0].0.Left? {
        GoneStep(y, steps[0].1);
      } else {
        GoneStep(y.Swap(), steps[0].1);
      }
      GoneStays(Step(y, steps[0].0, steps[0].1), steps[1..]);
    }
  }

  lemma OneSidedState(l: Offer, r: Offer)
    requires Offered(l, r)
    ensures
      var y := OneSided(l, r);
      && y.left.pc.Gone? && y.left.freeFailed && y.left.chan.flags.released && !y.left.chan.flags.closedLocal
      && y.right.pc.Gone? && y.out.flight == [] && y.back.flight == []
  {
  }

  lemma {:induction false} OneSidedReachable(l: Offer, r: Offer)
    requires Offered(l, r)
    ensures Inv(OneSided(l, r))
  {
    StartHolds(l, r);
    StepKeeps(Start(l, r), Left, FreeCall(false));
    var y1 := Step(Start(l, r), Left, FreeCall(false));
    StepKeeps(y1, Right, FreeCall(true));
    var y2 := Step(y1, Right, FreeCall(true));
    StepKeeps(y2, Right, Flushed(RcOk, true));
    var y3 := Step(y2, Right, Flushed(RcOk, true));
    StepKeeps(y3, Right, Flushed(RcOk, true));
    var y4 := Step(y3, Right, Flushed(RcOk, true));
    StepKeeps(y4, Left, Deliver(true));
    StepKeeps(Step(y4, Left, Deliver(true)), Left, Deliver(true));
  }

  /** Then the left end is deallocated without having sent CLOSE, and the right end never is, whatever follows. */
  lemma OneSidedRelease(l: Offer, r: Offer, later: seq<(Side, Action)>)
    requires Offered(l, r)
    ensures
      var y := OneSided(l, r);
      && y.left.chan.flags.released && !y.left.chan.flags.closedLocal
      && y.right.pc.Gone? && y.out.flight == [] && y.back.flight == []
      && !Run(y, later).right.chan.flags.released
  {
    OneSidedState(l, r);
    OneSidedReachable(l, r);
    var y := OneSided(l, r);
    GoneStays(y, later);
    EveryRun(y, later);
    ReceivedWasSent(Run(y, later).out, Close);
  }
}
