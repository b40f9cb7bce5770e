/**
 * Cancelling an async connect (Sources/SSHKit/SSHClient.swift): the locked box that
 * the connecting task and the cancellation handler share. Each critical section and
 * each effect after it is one step; a schedule is any interleaving of the two.
 */
module ConnectRace {
  import opened Octets

  type SessionId = nat

  /** The fields behind the lock. */
  datatype Box = Box(session: Option<SessionId>, cancelled: bool, finished: bool)

  // ---- The critical sections ----

  function AfterStore(b: Box, s: SessionId): Box { b.(session := Some(s)) }

  function AfterCancel(b: Box): Box { b.(cancelled := true) }

  /** The session the cancellation handler goes on to disconnect. */
  function ToDisconnect(b: Box): Option<SessionId> { if b.finished then None else b.session }

  function AfterSuccess(b: Box): Box { b.(finished := true) }

  class SSHLockedSession {
    var session: Option<SessionId>
    var cancelled: bool
    var finished: bool

    ghost function Fields(): Box
      reads this
    {
      Box(session, cancelled, finished)
    }

    constructor ()
      ensures Fields() == Box(None, false, false)
    {
      session, cancelled, finished := None, false, false;
    }

    method Store(s: SessionId) returns (shouldCancel: bool)
      modifies this`session
      ensures Fields() == AfterStore(old(Fields()), s)
      ensures shouldCancel == old(cancelled)
    {
      session := Some(s);
      shouldCancel := cancelled;
    }

    method Cancel() returns (toDisconnect: Option<SessionId>)
      modifies this`cancelled
      ensures Fields() == AfterCancel(old(Fields()))
      ensures toDisconnect == ToDisconnect(old(Fields()))
    {
      cancelled := true;
      var stored := session;
      var shouldCancel := !finished;
      toDisconnect := if shouldCancel then stored else None;
    }

    method ShouldReturnConnectedSession() returns (shouldReturn: bool)
      modifies this`finished
      ensures Fields() == AfterSuccess(old(Fields()))
      ensures shouldReturn == !old(cancelled)
    {
      finished := true;
      shouldReturn := !cancelled;
    }

    method IsCancelled() returns (value: bool)
      ensures value == Fields().cancelled
    {
      value := cancelled;
    }

    method StoredSession() returns (stored: Option<SessionId>)
      ensures stored == Fields().session
    {
      stored := session;
    }
  }

  // ---- The two tasks ----

  datatype Result = Returned(connection: SessionId) | ThrewCancelled | ThrewError

  /** Where the connecting task stands. */
  datatype ConnectPc =
    | Starting
    | Stored(shouldCancel: bool)
    | Connecting
    | Succeeded(shouldReturn: bool)
    | Failed(isCancelled: bool)
    | Abandoning(stored: Option<SessionId>)
    | Resuming(result: Result)
    | Resumed(result: Result)

  /** Where the cancellation handler stands; the task may never be cancelled. */
  datatype CancelPc = NotCancelled | Cancelling(toDisconnect: Option<SessionId>) | CancelDone

  /** The critical sections, as the history records them. */
  datatype Section = StoreSection | CompletionSection(ok: bool) | CancelSection

  datatype World = World(
    box: Box,
    connect: ConnectPc,
    cancel: CancelPc,
    disconnected: seq<SessionId>,
    resumes: nat,
    history: seq<Section>
  )

  datatype Act = ConnectStep(ok: bool) | CancelStep

  function Start(): World {
    World(Box(None, false, false), Starting, NotCancelled, [], 0, [])
  }

  function Disconnect(w: World, s: Option<SessionId>): World {
    if s.Some? then w.(disconnected := w.disconnected + [s.value]) else w
  }

  /** The next step of the connecting task for session `s`; `ok` is how its connect completes. */
  function StepConnect(w: World, s: SessionId, ok: bool): World {
    match w.connect
    case Starting =>
      w.(box := AfterStore(w.box, s), connect := Stored(w.box.cancelled), history := w.history + [StoreSection])
    case Stored(shouldCancel) =>
      Disconnect(w, if shouldCancel then Some(s) else None).(connect := Connecting)
    case Connecting =>
      if ok then
        w.(box := AfterSuccess(w.box), connect := Succeeded(!w.box.cancelled),
           history := w.history + [CompletionSection(true)])
      else
        w.(connect := Failed(w.box.cancelled), history := w.history + [CompletionSection(false)])
    case Succeeded(shouldReturn) =>
      if shouldReturn then w.(connect := Resuming(Returned(s))) else w.(connect := Abandoning(w.box.session))
    case Failed(isCancelled) =>
      w.(connect := Resuming(if isCancelled then ThrewCancelled else ThrewError))
    case Abandoning(stored) =>
      Disconnect(w, stored).(connect := Resuming(ThrewCancelled))
    case Resuming(result) =>
      w.(connect := Resumed(result), resumes := w.resumes + 1)
    case Resumed(_) => w
  }

  function StepCancel(w: World): World {
    match w.cancel
    case NotCancelled =>
      w.(box := AfterCancel(w.box), cancel := Cancelling(ToDisconnect(w.box)),
         history := w.history + [CancelSection])
    case Cancelling(toDisconnect) => Disconnect(w, toDisconnect).(cancel := CancelDone)
    case CancelDone => w
  }

  function Step(w: World, s: SessionId, a: Act): World {
    match a
    case ConnectStep(ok) => StepConnect(w, s, ok)
    case CancelStep => StepCancel(w)
  }

  function Run(w: World, s: SessionId, schedule: seq<Act>): World {
    if schedule == [] then w
    else Step(Run(w, s, schedule[..|schedule| - 1]), s, schedule[|schedule| - 1])
  }

  // ---- Which critical section came first ----

  /** The first of the completion's and the cancellation's critical sections. */
  function First(history: seq<Section>): Option<Section> {
    if history == [] then None
    else
      var before := First(history[..|history| - 1]);
      var last := history[|history| - 1];
      if before.Some? then before else if last.StoreSection? then None else Some(last)
  }

  function Completion(history: seq<Section>): Option<bool> {
    if history == [] then None
    else
      match history[|history| - 1]
      case CompletionSection(ok) => Some(ok)
      case _ => Completion(history[..|history| - 1])
  }

  lemma OneMoreSection(history: seq<Section>, x: Section)
    ensures First(history + [x]) == if First(history).Some? || x.StoreSection? then First(history) else Some(x)
    ensures Completion(history + [x]) == if x.CompletionSection? then Some(x.ok) else Completion(history)
  {
    assert (history + [x])[..|history|] == history;
  }

  predicate CancelledFirst(w: World) {
    First(w.history) == Some(CancelSection)
  }

  // ---- The invariant ----

  /** Disconnects the connecting task and the handler have made, given where they stand. */
  function Disconnects(w: World): nat {
    // by the task, having stored its session in a box already cancelled
    (if CancelledBeforeStore(w.history) && !w.connect.Starting? && !w.connect.Stored? then 1 else 0)
    // by the handler
    + (if w.cancel.CancelDone? && !CancelledBeforeStore(w.history) && !FirstIsSuccess(w.history) then 1 else 0)
    // by the task, abandoning a connection
    + (if CancelledFirst(w) && Completion(w.history) == Some(true) && (w.connect.Resuming? || w.connect.Resumed?)
       then 1 else 0)
  }

  predicate FirstIsSuccess(history: seq<Section>) {
    First(history) == Some(CompletionSection(true))
  }

  predicate CancelledBeforeStore(history: seq<Section>) {
    history != [] && history[0].CancelSection?
  }

  /** What the place of the connecting task says about the history. */
  ghost predicate ConnectInv(w: World) {
    match w.connect
    case Starting => Completion(w.history).None? && StoreSection !in w.history && w.resumes == 0
    case Stored(shouldCancel) =>
      Completion(w.history).None? && w.resumes == 0 && shouldCancel == CancelledBeforeStore(w.history)
    case Connecting => Completion(w.history).None? && w.resumes == 0
    case Succeeded(shouldReturn) =>
      Completion(w.history) == Some(true) && shouldReturn == !CancelledFirst(w) && w.resumes == 0
    case Failed(isCancelled) =>
      Completion(w.history) == Some(false) && isCancelled == CancelledFirst(w) && w.resumes == 0
    case Abandoning(stored) =>
      Completion(w.history) == Some(true) && CancelledFirst(w) && stored == w.box.session && w.resumes == 0
    case Resuming(result) => Completion(w.history).Some? && w.resumes == 0
    case Resumed(result) => Completion(w.history).Some? && w.resumes == 1
  }

  /** The result the history demands. */
  function Verdict(w: World, s: SessionId): Result {
    if CancelledFirst(w) then ThrewCancelled
    else if Completion(w.history) == Some(true) then Returned(s)
    else ThrewError
  }

  ghost predicate BoxInv(w: World, s: SessionId) {
    && (w.box.session == if w.connect.Starting? then None else Some(s))
    && (w.box.cancelled <==> !w.cancel.NotCancelled?)
    && (w.box.cancelled <==> CancelSection in w.history)
    && (w.box.finished <==> Completion(w.history) == Some(true))
    && (First(w.history).Some? <==> w.box.cancelled || Completion(w.history).Some?)
    && (First(w.history).Some? && !CancelledFirst(w) ==>
          First(w.history) == Some(CompletionSection(Completion(w.history) == Some(true))))
    && (Completion(w.history).None? && w.box.cancelled ==> CancelledFirst(w))
    && (!w.box.cancelled ==> !CancelledFirst(w))
    && (CancelledBeforeStore(w.history) ==> CancelledFirst(w))
    && (w.connect.Starting? && w.box.cancelled ==> CancelledBeforeStore(w.history))
    && (w.connect.Starting? && !w.box.cancelled <==> w.history == [])
    && (w.cancel.Cancelling? ==>
          w.cancel.toDisconnect
          == if CancelledBeforeStore(w.history) || FirstIsSuccess(w.history) then None else Some(s))
  }

  ghost predicate Inv(w: World, s: SessionId) {
    && BoxInv(w, s) && ConnectInv(w)
    && (w.connect.Resuming? || w.connect.Resumed? ==> w.connect.result == Verdict(w, s))
    && |w.disconnected| == Disconnects(w)
    && (forall x :: x in w.disconnected ==> x == s)
  }

  lemma {:induction false} ConnectKeepsInv(w: World, s: SessionId, ok: bool)
    requires Inv(w, s)
    ensures Inv(StepConnect(w, s, ok), s)
  {
    match w.connect
    case Starting => OneMoreSection(w.history, StoreSection);
    case Connecting => OneMoreSection(w.history, CompletionSection(ok));
    case _ =>
  }

  lemma CancelKeepsInv(w: World, s: SessionId)
    requires Inv(w, s)
    ensures Inv(StepCancel(w), s)
  {
    if w.cancel.NotCancelled? {
      OneMoreSection(w.history, CancelSection);
      assert CancelledBeforeStore(w.history + [CancelSection]) <==> w.connect.Starting?;
    }
  }

  lemma {:induction false} EveryRun(s: SessionId, schedule: seq<Act>)
    ensures Inv(Run(Start(), s, schedule), s)
  {
    if schedule != [] {
      var k := |schedule| - 1;
      EveryRun(s, schedule[..k]);
      match schedule[k]
      case ConnectStep(ok) => ConnectKeepsInv(Run(Start(), s, schedule[..k]), s, ok);
      case CancelStep => CancelKeepsInv(Run(Start(), s, schedule[..k]), s);
    }
  }

  // ---- Main results ----

  /** The continuation is resumed at most once, and once the task is done, exactly once. */
  lemma {:induction false} ResumedOnce(s: SessionId, schedule: seq<Act>)
    ensures Run(Start(), s, schedule).resumes == (if Run(Start(), s, schedule).connect.Resumed? then 1 else 0)
  {
    EveryRun(s, schedule);
  }

  /**
   * The connection is returned exactly when connecting succeeded and the completion's
   * critical section came before the cancellation's; a task cancelled before that is
   * told so even when connecting failed by itself.
   */
  lemma ReturnedIffCompletedFirst(s: SessionId, schedule: seq<Act>)
    requires Run(Start(), s, schedule).connect.Resumed?
    ensures
      var w := Run(Start(), s, schedule);
      && (w.connect.result == Returned(s) <==> First(w.history) == Some(CompletionSection(true)))
      && (w.connect.result == ThrewCancelled <==> First(w.history) == Some(CancelSection))
      && (w.connect.result == ThrewError <==> First(w.history) == Some(CompletionSection(false)))
  {
    EveryRun(s, schedule);
  }

  /** From the moment a connection is to be returned the box never disconnects it, whatever happens later. */
  lemma ReturnedIsNeverDisconnected(s: SessionId, schedule: seq<Act>, later: seq<Act>)
    requires
      var w := Run(Start(), s, schedule);
      w.connect == Succeeded(true) || (w.connect.Resuming? && w.connect.result.Returned?)
      || (w.connect.Resumed? && w.connect.result.Returned?)
    ensures Run(Start(), s, schedule + later).disconnected == []
  {
    EveryRun(s, schedule);
    StaysFirst(s, schedule, later);
    EveryRun(s, schedule + later);
  }

  lemma RunOneMore(w: World, s: SessionId, schedule: seq<Act>, a: Act)
    ensures Run(w, s, schedule + [a]) == Step(Run(w, s, schedule), s, a)
  {
    assert (schedule + [a])[..|schedule|] == schedule;
  }

  lemma {:induction false} StaysFirst(s: SessionId, schedule: seq<Act>, later: seq<Act>)
    requires First(Run(Start(), s, schedule).history).Some?
    ensures First(Run(Start(), s, schedule + later).history) == First(Run(Start(), s, schedule).history)
    decreases |later|
  {
    if later == [] {
      assert schedule + later == schedule;
    } else {
      var before, a := schedule + later[..|later| - 1], later[|later| - 1];
      StaysFirst(s, schedule, later[..|later| - 1]);
      StepKeepsFirst(Run(Start(), s, before), s, a);
      RunOneMore(Start(), s, before, a);
      assert schedule + later == before + [a];
    }
  }

  lemma StepKeepsFirst(w: World, s: SessionId, a: Act)
    requires First(w.history).Some?
    ensures First(Step(w, s, a).history) == First(w.history)
  {
    OneMoreSection(w.history, StoreSection);
    OneMoreSection(w.history, CompletionSection(true));
    OneMoreSection(w.history, CompletionSection(false));
    OneMoreSection(w.history, CancelSection);
  }

  /**
   * How often the session has been disconnected once both tasks are done: never when it
   * is returned; when cancellation came first, once, and a second time if connecting
   * succeeded all the same; once when cancellation came after a failure.
   */
  lemma DisconnectedExactly(s: SessionId, schedule: seq<Act>)
    requires Run(Start(), s, schedule).connect.Resumed? && !Run(Start(), s, schedule).cancel.Cancelling?
    ensures
      var w := Run(Start(), s, schedule);
      && (forall x :: x in w.disconnected ==> x == s)
      && |w.disconnected| == (match w.connect.result
                              case Returned(_) => 0
                              case ThrewCancelled => if Completion(w.history) == Some(true) then 2 else 1
                              case ThrewError => if w.cancel.CancelDone? then 1 else 0)
  {
    EveryRun(s, schedule);
  }
}
