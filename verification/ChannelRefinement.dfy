/**
 * The steps of a close or a free between two ends are the calls of the channel itself:
 * whatever the other end does meanwhile, they leave the channel and send the packets
 * that CloseOf and FreeOf say, which the mutable channel is proved against.
 */
module ChannelRefinement {
  import opened ChannelSpec
  import opened ChannelPair
  import opened ChannelInvariants

  type Steps = seq<(Side, Action)>

  // ---- What arrives during a flush ----

  /** The packets a list of steps delivers to the left end. */
  function Arrived(y: System, steps: Steps): seq<Arrival>
    decreases |steps|
  {
    if steps == [] then []
    else ArrivedAt(y, steps[0].0, steps[0].1) + Arrived(Step(y, steps[0].0, steps[0].1), steps[1..])
  }

  function ArrivedAt(y: System, side: Side, a: Action): seq<Arrival> {
    if side.Left? && a.Deliver? && y.back.flight != [] then [Arrival(y.back.flight[0], a.allocOk)] else []
  }

  /** The flush of the left end goes on and its transport lives; anything else may happen. */
  predicate FlushGoesOn(steps: Steps) {
    forall i :: 0 <= i < |steps| && steps[i].0.Left? ==> !steps[i].1.Flushed? && !steps[i].1.TransportFails?
  }

  lemma ReceiveLast(c: Chan, arrivals: seq<Arrival>, a: Arrival)
    ensures ReceiveAll(c, arrivals + [a]) == Receive(ReceiveAll(c, arrivals), a.packet, a.allocOk)
  {
    assert (arrivals + [a])[..|arrivals|] == arrivals;
  }

  lemma {:induction false} ReceiveFirst(c: Chan, a: Arrival, arrivals: seq<Arrival>)
    ensures ReceiveAll(c, [a] + arrivals) == ReceiveAll(Receive(c, a.packet, a.allocOk), arrivals)
    decreases |arrivals|
  {
    if arrivals == [] {
      ReceiveLast(c, [], a);
      assert [] + [a] == [a] + arrivals;
    } else {
      var init, last := arrivals[..|arrivals| - 1], arrivals[|arrivals| - 1];
      var longer, c1 := [a] + init, Receive(c, a.packet, a.allocOk);
      assert init + [last] == arrivals && longer + [last] == [a] + arrivals;
      ReceiveLast(c, longer, last);
      ReceiveLast(c1, init, last);
      ReceiveFirst(c, a, init);
    }
  }

  predicate Flushing(p: Peer) {
    p.pc.FlushEof? || p.pc.FlushClose?
  }

  lemma FlushingStep(y: System, a: Action)
    requires Flushing(y.left) && !a.Flushed? && !a.TransportFails?
    ensures
      var z := StepLeft(y, a);
      z.left == y.left.(chan := ReceiveAll(y.left.chan, ArrivedAt(y, Left, a))) && z.out == y.out
  {
    if ArrivedAt(y, Left, a) != [] {
      assert ReceiveAll(y.left.chan, []) == y.left.chan;
      assert ArrivedAt(y, Left, a)[..0] == [];
    }
  }

  lemma OtherSideStep(y: System, a: Action)
    ensures
      var z := Step(y, Right, a);
      z.left == y.left && z.out.Sent() == y.out.Sent()
  {
    if a.Deliver? && y.out.flight != [] {
      var z := Step(y, Right, a);
      assert z.out.received == y.out.received + [y.out.flight[0]] && z.out.flight == y.out.flight[1..];
    }
  }

  /** During a flush the left end only receives, and sends nothing. */
  lemma {:induction false} FlushReceives(y: System, steps: Steps)
    requires Flushing(y.left) && FlushGoesOn(steps)
    ensures
      var z := Run(y, steps);
      z.left == y.left.(chan := ReceiveAll(y.left.chan, Arrived(y, steps))) && z.out.Sent() == y.out.Sent()
    decreases |steps|
  {
    if steps != [] {
      var side, a := steps[0].0, steps[0].1;
      var y1 := Step(y, side, a);
      if side.Left? {
        FlushingStep(y, a);
      } else {
        OtherSideStep(y, a);
      }
      FlushReceives(y1, steps[1..]);
      if ArrivedAt(y, side, a) != [] {
        ReceiveFirst(y.left.chan, ArrivedAt(y, side, a)[0], Arrived(y1, steps[1..]));
      } else {
        assert Arrived(y, steps) == Arrived(y1, steps[1..]);
      }
    }
  }

  // ---- One call ----

  /** What is decided during a close of the pair: as CloseEnv, with all the steps taken during each flush. */
  datatype Schedule = Schedule(eofOk: bool, eofFlush: Rc, first: Steps, closeOk: bool, closeFlush: Rc, second: Steps)

  predicate WellTimed(t: Schedule) {
    FlushGoesOn(t.first) && FlushGoesOn(t.second)
  }

  /** Whether the packet the call sends first gets out. */
  function FirstSend(c: Chan, t: Schedule): bool {
    if c.flags.localEof then t.closeOk else t.eofOk
  }

  /** The steps of a call, up to its return. */
  function AfterEofPhase(y: System, t: Schedule): System {
    if y.left.pc.FlushEof? then Step(Run(y, t.first), Left, Flushed(t.eofFlush, t.closeOk)) else y
  }

  function AfterClosePhase(y: System, t: Schedule): System {
    if y.left.pc.FlushClose? then Step(Run(y, t.second), Left, Flushed(t.closeFlush, true)) else y
  }

  /** Where the call stands when it returns: the goal's tail has run. */
  predicate Returned(y: System, z: System, goal: Goal, c: Chan, packets: seq<Packet>) {
    && z.out.Sent() == y.out.Sent() + packets
    && z.left.chan == (if goal.ThenFree? then AfterFree(c) else c)
    && z.left.pc == (if goal.ThenFree? then Gone else Idle)
  }

  lemma GoalReturns(y: System, goal: Goal)
    ensures Returned(y, AfterGoal(y, goal), goal, y.left.chan, [])
    ensures Returned(y, GiveUp(y, goal), goal, y.left.chan, [])
  {
    assert y.out.Sent() + [] == y.out.Sent();
  }

  lemma FlushReturns(z: System, goal: Goal, flush: Rc)
    requires z.left.pc == FlushClose(goal)
    ensures Returned(z, Step(z, Left, Flushed(flush, true)), goal, z.left.chan, [])
  {
    GoalReturns(z, goal);
  }

  lemma ReturnedLater(y: System, y1: System, z: System, goal: Goal, c: Chan, before: seq<Packet>, packets: seq<Packet>)
    requires y1.out.Sent() == y.out.Sent() + before && Returned(y1, z, goal, c, packets)
    ensures Returned(y, z, goal, c, before + packets)
  {
    assert (y.out.Sent() + before) + packets == y.out.Sent() + (before + packets);
  }

  lemma ClosePhase(y: System, goal: Goal, t: Schedule)
    requires y.left.pc == FlushClose(goal) && WellTimed(t)
    ensures Returned(y, AfterClosePhase(y, t), goal, ReceiveAll(y.left.chan, Arrived(y, t.second)), [])
  {
    var z := Run(y, t.second);
    FlushReceives(y, t.second);
    FlushReturns(z, goal, t.closeFlush);
    assert y.out.Sent() + [] == y.out.Sent();
    ReturnedLater(y, z, AfterClosePhase(y, t), goal, z.left.chan, [], []);
  }

  /** `e` says what happens in the second flush, from `y` on. */
  predicate SecondFlush(y: System, t: Schedule, e: CloseEnv) {
    e.closeOk == t.closeOk && e.closeFlush == t.closeFlush && e.second == Arrived(y, t.second)
  }

  /** From the CLOSE on. */
  lemma CloseAndReturn(y: System, goal: Goal, t: Schedule, e: CloseEnv, before: seq<Packet>)
    requires WellTimed(t) && SecondFlush(SendClose(y, goal, t.closeOk), t, e)
    ensures
      var x := CloseAfterEof(y.left.chan, before, e);
      exists packets :: && x.packets == before + packets
                        && Returned(y, AfterClosePhase(SendClose(y, goal, t.closeOk), t), goal, x.chan, packets)
  {
    var y1 := SendClose(y, goal, t.closeOk);
    ClosePhase(y1, goal, t);
    var packets := if t.closeOk then [Close] else [];
    assert y1.out.Sent() == y.out.Sent() + packets && packets + [] == packets;
    ReturnedLater(y, y1, AfterClosePhase(y1, t), goal, CloseAfterEof(y.left.chan, before, e).chan, packets, []);
  }

  /** The call proper, once it is clear that it closes. */
  function CallFrom(y: System, goal: Goal, t: Schedule): System {
    StartClose(y, goal, FirstSend(y.left.chan, t))
  }

  /** `e` is the schedule as the channel sees it. */
  predicate SeesAs(y1: System, t: Schedule, e: CloseEnv) {
    e == CloseEnv(t.eofOk, t.eofFlush, Arrived(y1, t.first), t.closeOk, t.closeFlush,
                  Arrived(AfterEofPhase(y1, t), t.second))
  }

  lemma WithEof(y: System, goal: Goal, t: Schedule, e: CloseEnv)
    requires WellTimed(t) && !goal.JustEof? && t.eofOk
    requires !y.left.chan.flags.closedLocal && !y.left.chan.flags.localEof
    requires SeesAs(CallFrom(y, goal, t), t, e)
    ensures
      var x := CloseOf(y.left.chan, e);
      Returned(y, AfterClosePhase(AfterEofPhase(CallFrom(y, goal, t), t), t), goal, x.chan, x.packets)
  {
    var y1 := CallFrom(y, goal, t);
    var z := Run(y1, t.first);
    FlushReceives(y1, t.first);
    assert z.out.Sent() == y.out.Sent() + [Eof];
    var z1 := z.(left := EofFlushEnds(z.left, t.eofFlush));
    var last := AfterClosePhase(AfterEofPhase(y1, t), t);
    if t.eofFlush.RcOk? {
      CloseAndReturn(z1, goal, t, e, [Eof]);
      var x := CloseOf(y.left.chan, e);
      var packets :| x.packets == [Eof] + packets && Returned(z1, last, goal, x.chan, packets);
      ReturnedLater(y, z1, last, goal, x.chan, [Eof], packets);
    } else {
      GoalReturns(z1, goal);
      assert [Eof] + [] == [Eof];
      ReturnedLater(y, z1, last, goal, z1.left.chan, [Eof], []);
    }
  }

  lemma CallReturns(y: System, goal: Goal, t: Schedule, e: CloseEnv)
    requires WellTimed(t) && !goal.JustEof? && SeesAs(CallFrom(y, goal, t), t, e)
    ensures
      var x := CloseOf(y.left.chan, e);
      Returned(y, AfterClosePhase(AfterEofPhase(CallFrom(y, goal, t), t), t), goal, x.chan, x.packets)
  {
    var c := y.left.chan;
    GoalReturns(y, goal);
    if c.flags.closedLocal {
    } else if c.flags.localEof {
      CloseAndReturn(y, goal, t, e, []);
      var x := CloseOf(c, e);
      assert forall packets: seq<Packet> :: [] + packets == packets;
    } else if t.eofOk {
      WithEof(y, goal, t, e);
    }
  }

  // ---- The two calls ----

  /** The steps of a whole call, from the call to its return; they are steps of a run. */
  function WholeCall(y: System, call: Action, t: Schedule): System {
    AfterClosePhase(AfterEofPhase(Step(y, Left, call), t), t)
  }

  function EnvOf(y: System, call: Action, t: Schedule): CloseEnv {
    var y1 := Step(y, Left, call);
    CloseEnv(t.eofOk, t.eofFlush, Arrived(y1, t.first), t.closeOk, t.closeFlush,
             Arrived(AfterEofPhase(y1, t), t.second))
  }

  /** ssh_channel_close, whatever the other end does during its two flushes, while this end's transport lives. */
  lemma CloseRefines(y: System, t: Schedule)
    requires y.left.pc.Idle? && WellTimed(t)
    ensures
      var call := CloseCall(FirstSend(y.left.chan, t));
      var z, x := WholeCall(y, call, t), CloseOf(y.left.chan, EnvOf(y, call, t));
      z.left.chan == x.chan && z.left.pc.Idle? && z.out.Sent() == y.out.Sent() + x.packets
  {
    CallReturns(y, JustClose, t, EnvOf(y, CloseCall(FirstSend(y.left.chan, t)), t));
  }

  /** ssh_channel_send_eof */
  lemma SendEofRefines(y: System, t: Schedule)
    requires y.left.pc.Idle? && WellTimed(t)
    ensures
      var c, y1 := y.left.chan, Step(y, Left, SendEof(t.eofOk));
      var z, sends := AfterEofPhase(y1, t), !c.flags.localEof && t.eofOk;
      && z.left.chan == (if sends then AfterEofFlushed(ReceiveAll(c, Arrived(y1, t.first)), t.eofFlush) else c)
      && z.out.Sent() == y.out.Sent() + (if sends then [Eof] else []) && z.left.pc.Idle?
  {
    var y1 := Step(y, Left, SendEof(t.eofOk));
    if !y.left.chan.flags.localEof && t.eofOk {
      var z := Run(y1, t.first);
      FlushReceives(y1, t.first);
      assert y1.out.Sent() == y.out.Sent() + [Eof];
      assert Step(z, Left, Flushed(t.eofFlush, t.closeOk)) == z.(left := EofFlushEnds(z.left, t.eofFlush));
    } else {
      assert y1 == y && AfterEofPhase(y1, t) == y;
      assert y.out.Sent() + [] == y.out.Sent();
    }
  }

  /** ssh_channel_free on a bound channel of a live session. */
  lemma FreeRefines(y: System, t: Schedule)
    requires y.left.pc.Idle? && WellTimed(t)
    ensures
      var call := FreeCall(FirstSend(y.left.chan, t));
      var z, x := WholeCall(y, call, t), FreeOf(y.left.chan, true, true, EnvOf(y, call, t));
      z.left.chan == x.chan && z.left.pc.Gone? && z.out.Sent() == y.out.Sent() + x.packets
  {
    var call := FreeCall(FirstSend(y.left.chan, t));
    if FreeSendsClose(y.left.chan) {
      CallReturns(y, ThenFree, t, EnvOf(y, call, t));
    } else {
      GoalReturns(y, ThenFree);
    }
  }

  // ---- When a call sends CLOSE ----

  lemma {:induction false} ReceivingKeepsClosed(c: Chan, arrivals: seq<Arrival>)
    ensures ReceiveAll(c, arrivals).flags.closedLocal == c.flags.closedLocal
  {
    if arrivals != [] {
      var k := |arrivals| - 1;
      ReceivingKeepsClosed(c, arrivals[..k]);
      ReceiveKeepsFlags(ReceiveAll(c, arrivals[..k]), arrivals[k].packet, arrivals[k].allocOk);
    }
  }

  /** The close gets past its EOF. */
  predicate PastEof(c: Chan, e: CloseEnv) {
    c.flags.localEof || (e.eofOk && e.eofFlush.RcOk?)
  }

  lemma TailSendsClose(c: Chan, before: seq<Packet>, e: CloseEnv)
    requires Close !in before
    ensures
      var x := CloseAfterEof(c, before, e);
      (x.chan.flags.closedLocal <==> c.flags.closedLocal || e.closeOk) && (Close in x.packets <==> e.closeOk)
  {
    ReceivingKeepsClosed(if e.closeOk then AfterCloseSent(c) else c, e.second);
  }

  /** A close sends CLOSE if and only if it had not done so, it gets past its EOF, and the CLOSE can be sent. */
  lemma CloseSendsClose(c: Chan, e: CloseEnv)
    ensures
      var x := CloseOf(c, e);
      && (Close in x.packets <==> !c.flags.closedLocal && PastEof(c, e) && e.closeOk)
      && (x.chan.flags.closedLocal <==> c.flags.closedLocal || Close in x.packets)
  {
    var eof := AfterEofFlushed(ReceiveAll(c, e.first), e.eofFlush);
    ReceivingKeepsClosed(c, e.first);
    TailSendsClose(c, [], e);
    TailSendsClose(eof, [Eof], e);
  }

  /**
   * After a free the channel has sent CLOSE if and only if it had before, or the session
   * was alive, the state asked for one, the EOF was out before or got out and was flushed,
   * and the CLOSE could be sent. SSH_AGAIN from the EOF flush is enough to miss it.
   */
  lemma FreeSentClose(c: Chan, alive: bool, bound: bool, e: CloseEnv)
    ensures FreeOf(c, alive, bound, e).chan.flags.closedLocal <==>
              c.flags.closedLocal || (alive && FreeSendsClose(c) && PastEof(c, e) && e.closeOk)
  {
    CloseSendsClose(c, e);
  }
}
