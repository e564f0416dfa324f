/**
 * Timers that outlive their purpose: the idle timer armed again after the shutdown, and the
 * connect timer that ends a session already connected. When each can happen, exactly.
 */
module LateTimers {
  import opened Sums
  import opened Asio
  import opened Sessions
  import opened SessionSafety
  import opened SessionLifetime
  import opened SessionDeadlines

  // ----- the idle timer after shutdown -----

  /**
   * After shutdown an event leaves the idle timer armed exactly when it was armed and did not
   * fire, or when the event is the handler of a queued success that restarts a client read.
   */
  lemma ArmedAfterShutdown(s: Session, e: Event)
    requires Valid(s) && Guarded(s) && s.shuttingDown && Step(s, e).Some?
    ensures Sum(Step(s, e).value.pending, IsArmedIdle) == 1
            <==> Rearms(s, e) || (Sum(s.pending, IsArmedIdle) == 1 && !e.Completes?)
  {
    var t := Step(s, e).value;
    match e
    case Completes(i, ok, data) => UpdateCounts(s.pending, i, t.pending[i]);
    case Transmits(i, n) =>
    case Handles(i) =>
      TakeCounts(s.pending, i);
      if !Rearms(s, e) {
        LateHandlerKeepsArmed(s.(pending := Removed(s.pending, i)), s.pending[i]);
      }
      HandlerMoves(s.(pending := Removed(s.pending, i)), s.pending[i]);
  }

  lemma LateHandlerKeepsArmed(rest: Session, p: Pending)
    requires p.status.Ready? && rest.shuttingDown
    requires !(p.status.ec == Ok && rest.idleTimeoutMs > 0 && (p.op == Connect || p.op == Write(Up)))
    ensures Sum(Handle(rest, p).pending, IsArmedIdle) == Sum(rest.pending, IsArmedIdle)
  {
    match p.op
    case Connect =>
      var t := rest.Cancelling({ConnectTimer});
      CancelCounts(rest.pending, {ConnectTimer});
      ReadMoves(t, Up);
      ReadMoves(ReadFromClient(t), Down);
    case Read(d) => StartMoves(rest, Write(d), p.size);
    case Write(d) => ReadMoves(rest, d);
    case _ =>
  }

  /** A queued success that restarts a client read when handled. */
  predicate Rearming(p: Pending) {
    p.status == Ready(Ok) && (p.op == Connect || p.op == Write(Up))
  }

  ghost predicate SomeRearming(ps: seq<Pending>) {
    exists k | 0 <= k < |ps| :: Rearming(ps[k])
  }

  /** Shut down, with nothing waiting, and nothing queued that could start a wait. */
  ghost predicate Quiet(s: Session) {
    && s.shuttingDown && !s.clientOpen && !s.backendOpen
    && (forall p | p in s.pending :: p.status.Ready?)
    && (s.idleTimeoutMs == 0 || !SomeRearming(s.pending))
  }

  lemma QuietReads(s: Session, d: Direction)
    requires Quiet(s) && (d == Down || s.idleTimeoutMs == 0)
    ensures Quiet(ReadFrom(s, d))
  {}

  lemma CancellingIsQuiet(s: Session, ops: set<Op>)
    requires Quiet(s)
    ensures Quiet(s.Cancelling(ops))
  {
    assert forall i | 0 <= i < |s.pending| :: s.pending[i] in s.pending;
    assert s.Cancelling(ops).pending == s.pending;
  }

  lemma QuietHandler(rest: Session, p: Pending)
    requires Quiet(rest) && p.status.Ready? && (rest.idleTimeoutMs > 0 ==> !Rearming(p))
    ensures Quiet(Handle(rest, p))
  {
    match p.op
    case Connect =>
      CancellingIsQuiet(rest, {ConnectTimer});
      if p.status.ec == Ok {
        QuietReads(rest.Cancelling({ConnectTimer}), Up);
        QuietReads(ReadFromClient(rest.Cancelling({ConnectTimer})), Down);
      }
    case Write(d) =>
      if p.status.ec == Ok {
        QuietReads(rest, d);
      }
    case _ =>
  }

  lemma QuietStep(s: Session, e: Event)
    requires Quiet(s) && Step(s, e).Some?
    ensures Quiet(Step(s, e).value)
  {
    var p := s.pending[e.i];
    assert p in s.pending;
    assert e.Handles?;
    var rest := s.(pending := Removed(s.pending, e.i));
    assert forall q | q in rest.pending :: q in s.pending;
    assert Quiet(rest);
    QuietHandler(rest, p);
  }

  lemma {:induction false} QuietRun(s: Session, events: seq<Event>)
    requires Quiet(s) && Run(s, events).Some?
    ensures Sum(Run(s, events).value.pending, IsArmedIdle) == 0
    decreases |events|
  {
    if events == [] {
      assert forall i | 0 <= i < |s.pending| :: s.pending[i] in s.pending;
      SumZero(s.pending, IsArmedIdle);
    } else {
      QuietStep(s, events[0]);
      hide Quiet, Step;
      QuietRun(Step(s, events[0]).value, events[1..]);
    }
  }

  /** Some run leaves an idle wait running. */
  ghost predicate MayArm(s: Session) {
    exists events :: Run(s, events).Some? && Sum(Run(s, events).value.pending, IsArmedIdle) > 0
  }

  lemma RearmingArms(s: Session, k: nat)
    requires s.idleTimeoutMs > 0 && k < |s.pending| && Rearming(s.pending[k])
    ensures MayArm(s)
  {
    hide Handle;
    HandlerMoves(s.(pending := Removed(s.pending, k)), s.pending[k]);
    RunOne(s, Handles(k));
  }

  /**
   * So "no timer is armed after shutdown" is false, and this is its exact condition, wherever a
   * session is shut down and over all its runs from there: an idle wait can be running again if
   * and only if there is an idle timeout, and a success of the connect or of a write to the
   * backend is queued.
   */
  lemma ArmedAgainExactly(s: Session)
    requires Calm(s) && !s.shuttingDown
    ensures MayArm(Shutdown(s)) <==> s.idleTimeoutMs > 0 && SomeRearming(s.pending)
  {
    var t := Shutdown(s);
    ShutdownKeeps(s);
    assert forall k | 0 <= k < |s.pending| :: Rearming(t.pending[k]) <==> Rearming(s.pending[k]);
    if s.idleTimeoutMs > 0 && SomeRearming(s.pending) {
      var k :| 0 <= k < |s.pending| && Rearming(s.pending[k]);
      RearmingArms(t, k);
    } else {
      assert Quiet(t);
      forall events | Run(t, events).Some?
        ensures Sum(Run(t, events).value.pending, IsArmedIdle) == 0
      {
        QuietRun(t, events);
      }
    }
  }

  /**
   * Such a run from the start of a session: if the connect succeeds just as its timer runs out,
   * the timer's handler shuts down first and the connect's handler then arms the idle timer.
   */
  lemma TimerArmedAfterShutdown(backend: nat, idleTimeoutMs: nat)
    requires idleTimeoutMs > 0
    ensures var late := Run(StartedSession(backend, idleTimeoutMs),
                            [Completes(1, true, [])] + ([Completes(0, true, [])] + ([Handles(0)] + [Handles(0)])));
            late.Some? && late.value.shuttingDown && Sum(late.value.pending, IsArmedIdle) == 1
  {
    var s := StartedSession(backend, idleTimeoutMs);
    var s1 := Step(s, Completes(1, true, [])).value;
    var s2 := Step(s1, Completes(0, true, [])).value;
    var s3 := Step(s2, Handles(0)).value;
    RunCons(s, Completes(1, true, []), [Completes(0, true, [])] + ([Handles(0)] + [Handles(0)]));
    RunCons(s1, Completes(0, true, []), [Handles(0)] + [Handles(0)]);
    RunCons(s2, Handles(0), [Handles(0)]);
    RunOne(s3, Handles(0));
    StartIsValid(backend, idleTimeoutMs);
    StartIsGuarded(backend, idleTimeoutMs);
    StepKeepsValid(s, Completes(1, true, []));
    StepKeepsValid(s1, Completes(0, true, []));
    HandlerKeepsValid(s2, 0);
    CompletionKeepsGuarded(s, Completes(1, true, []));
    CompletionKeepsGuarded(s1, Completes(0, true, []));
    HandlerKeepsGuarded(s2, 0);
    assert s3.shuttingDown && Rearms(s3, Handles(0));
    ArmedAfterShutdown(s3, Handles(0));
    EveryEventUsesWork(s3, Handles(0));
  }

  // ----- the connect timer after the connect -----

  /** A connect timer that is running, or has run out and will shut the session down. */
  function IsConnectDeadline(p: Pending): nat {
    if p.op == ConnectTimer && (p.status.Waiting? || p.status.ec == Ok) then 1 else 0
  }

  predicate Fired(p: Pending) {
    p.op == ConnectTimer && p.status == Ready(Ok)
  }

  ghost predicate SomeFired(ps: seq<Pending>) {
    exists k | 0 <= k < |ps| :: Fired(ps[k])
  }

  lemma CancelAddsNoDeadline(s: Session, ops: set<Op>)
    ensures Sum(s.Cancelling(ops).pending, IsConnectDeadline) <= Sum(s.pending, IsConnectDeadline)
  {
    SumMonotone(Cancelled(s.pending, ops), s.pending, IsConnectDeadline);
  }

  lemma StartAddsNoDeadline(s: Session, op: Op, size: nat)
    requires op != ConnectTimer
    ensures Sum(s.Starting(op, size).pending, IsConnectDeadline) == Sum(s.pending, IsConnectDeadline)
  {
    SumAppend(s.pending, Pending(op, Started(s.Open(op)), size, 0), IsConnectDeadline);
  }

  lemma ReadAddsNoDeadline(s: Session, d: Direction)
    ensures Sum(ReadFrom(s, d).pending, IsConnectDeadline) <= Sum(s.pending, IsConnectDeadline)
  {
    if d == Up && s.idleTimeoutMs > 0 {
      CancelAddsNoDeadline(s, {IdleTimer});
      StartAddsNoDeadline(s.Cancelling({IdleTimer}), IdleTimer, 0);
    }
    StartAddsNoDeadline(if d == Up then ArmIdle(s) else s, Read(d), 0);
  }

  lemma ConnectedAddsNoDeadline(s: Session, ec: Ec)
    ensures Sum(OnConnected(s, ec).pending, IsConnectDeadline)
         <= Sum(s.Cancelling({ConnectTimer}).pending, IsConnectDeadline)
  {
    var t := s.Cancelling({ConnectTimer});
    CancelAddsNoDeadline(t, TIMER_OPS + CLIENT_OPS + BACKEND_OPS);
    ReadAddsNoDeadline(t, Up);
    ReadAddsNoDeadline(ReadFromClient(t), Down);
  }

  lemma HandlerAddsNoDeadline(rest: Session, p: Pending)
    requires p.status.Ready?
    ensures Sum(Handle(rest, p).pending, IsConnectDeadline) <= Sum(rest.pending, IsConnectDeadline)
  {
    hide ReadFrom, OnConnected;
    CancelAddsNoDeadline(rest, TIMER_OPS + CLIENT_OPS + BACKEND_OPS);
    match p.op
    case Connect =>
      CancelAddsNoDeadline(rest, {ConnectTimer});
      ConnectedAddsNoDeadline(rest, p.status.ec);
    case Read(d) => StartAddsNoDeadline(rest, Write(d), p.size);
    case Write(d) => ReadAddsNoDeadline(rest, d);
    case _ =>
  }

  /** Only `Start` arms the connect timer. */
  lemma ConnectDeadlinesNeverGrow(s: Session, e: Event)
    requires Step(s, e).Some?
    ensures Sum(Step(s, e).value.pending, IsConnectDeadline) <= Sum(s.pending, IsConnectDeadline)
  {
    hide Handle;
    var t := Step(s, e).value;
    if e.Handles? {
      SumRemove(s.pending, e.i, IsConnectDeadline);
      HandlerAddsNoDeadline(s.(pending := Removed(s.pending, e.i)), s.pending[e.i]);
    } else {
      SumUpdate(s.pending, e.i, t.pending[e.i], IsConnectDeadline);
    }
  }

  lemma {:induction false} NoConnectDeadlineComesBack(s: Session, events: seq<Event>)
    requires Run(s, events).Some?
    ensures Sum(Run(s, events).value.pending, IsConnectDeadline) <= Sum(s.pending, IsConnectDeadline)
    decreases |events|
  {
    hide Step;
    if events != [] {
      ConnectDeadlinesNeverGrow(s, events[0]);
      NoConnectDeadlineComesBack(Step(s, events[0]).value, events[1..]);
    }
  }

  /** The handler of a connect timer shuts down a session that was still up. */
  ghost predicate TimesOut(s: Session, i: nat) {
    && !s.shuttingDown && i < |s.pending| && s.pending[i].op == ConnectTimer && s.pending[i].status.Ready?
    && RunHandler(s, i).value.shuttingDown
  }

  /** Some run comes to that. */
  ghost predicate MayTimeOut(s: Session) {
    exists events, i: nat :: Run(s, events).Some? && TimesOut(Run(s, events).value, i)
  }

  lemma NoDeadlineNoTimeout(s: Session)
    requires Sum(s.pending, IsConnectDeadline) == 0
    ensures !MayTimeOut(s)
  {
    forall events, i: nat | Run(s, events).Some?
      ensures !TimesOut(Run(s, events).value, i)
    {
      var t := Run(s, events).value;
      NoConnectDeadlineComesBack(s, events);
      SumZero(t.pending, IsConnectDeadline);
      if TimesOut(t, i) {
        assert false;
      }
    }
  }

  lemma FiredTimesOut(s: Session)
    requires !s.shuttingDown && SomeFired(s.pending)
    ensures MayTimeOut(s)
  {
    var k :| 0 <= k < |s.pending| && Fired(s.pending[k]);
    assert Run(s, []).Some? && Run(s, []).value == s;
    assert TimesOut(s, k);
  }

  /**
   * A session that is no longer connecting can still be ended by its connect timer, in some run,
   * if and only if the timer had run out and its handler is still queued.
   */
  lemma ConnectedTimesOutExactly(s: Session)
    requires Guarded(s) && !s.shuttingDown && Sum(s.pending, IsConnect) == 0
    ensures MayTimeOut(s) <==> SomeFired(s.pending)
  {
    SumZero(s.pending, IsRunningConnectTimer);
    SumZero(s.pending, IsConnectDeadline);
    if SomeFired(s.pending) {
      FiredTimesOut(s);
    } else {
      assert forall i | 0 <= i < |s.pending| :: !Fired(s.pending[i]) && IsRunningConnectTimer(s.pending[i]) == 0;
      NoDeadlineNoTimeout(s);
    }
  }

  /** No timeout comes or goes. */
  ghost predicate KeepsFired(ps: seq<Pending>, qs: seq<Pending>) {
    && |ps| <= |qs|
    && (forall k | 0 <= k < |ps| :: Fired(qs[k]) <==> Fired(ps[k]))
    && (forall k | |ps| <= k < |qs| :: !Fired(qs[k]))
  }

  lemma KeepsSomeFired(ps: seq<Pending>, qs: seq<Pending>)
    requires KeepsFired(ps, qs)
    ensures SomeFired(ps) <==> SomeFired(qs)
  {
    if SomeFired(ps) {
      var k :| 0 <= k < |ps| && Fired(ps[k]);
      assert Fired(qs[k]);
    }
  }

  lemma ReadKeepsFired(s: Session, d: Direction)
    ensures KeepsFired(s.pending, ReadFrom(s, d).pending)
  {}

  /** Handling a connect leaves the connect timers that had fired, and no other. */
  lemma ConnectKeepsFired(rest: Session)
    ensures SomeFired(OnConnected(rest, Ok).pending) <==> SomeFired(rest.pending)
    ensures !SomeFired(rest.pending) ==> Sum(OnConnected(rest, Ok).pending, IsConnectDeadline) == 0
  {
    hide ReadFrom, SomeFired;
    var t := rest.Cancelling({ConnectTimer});
    var u := ReadFromClient(t);
    assert KeepsFired(rest.pending, t.pending);
    ReadKeepsFired(t, Up);
    ReadKeepsFired(u, Down);
    assert ReadFrom(t, Up) == u && ReadFrom(u, Down) == OnConnected(rest, Ok) by {
      UpThenDown(rest);
    }
    KeepsSomeFired(rest.pending, t.pending);
    KeepsSomeFired(t.pending, u.pending);
    KeepsSomeFired(u.pending, OnConnected(rest, Ok).pending);
    ConnectedAddsNoDeadline(rest, Ok);
    if !SomeFired(rest.pending) {
      NoneFiredNoDeadline(rest.pending);
    }
  }

  lemma UpThenDown(rest: Session)
    ensures var t := rest.Cancelling({ConnectTimer});
            && ReadFrom(t, Up) == ReadFromClient(t)
            && ReadFrom(ReadFromClient(t), Down) == OnConnected(rest, Ok)
  {}

  lemma NoneFiredNoDeadline(ps: seq<Pending>)
    requires !SomeFired(ps)
    ensures Sum(Cancelled(ps, {ConnectTimer}), IsConnectDeadline) == 0
  {
    SumZero(Cancelled(ps, {ConnectTimer}), IsConnectDeadline);
  }

  /**
   * As the connect's handler runs: the connect timer may yet end the session, connected though it
   * is, if and only if its timeout was already queued beside the connect.
   */
  lemma ConnectTimeoutReachesConnected(s: Session, i: nat)
    requires Valid(s) && !s.shuttingDown && i < |s.pending|
    requires s.pending[i].op == Connect && s.pending[i].status == Ready(Ok)
    ensures !RunHandler(s, i).value.shuttingDown
    ensures MayTimeOut(RunHandler(s, i).value) <==> SomeFired(s.pending)
  {
    var rest := s.(pending := Removed(s.pending, i));
    ConnectKeepsFired(rest);
    if SomeFired(s.pending) {
      var k :| 0 <= k < |s.pending| && Fired(s.pending[k]);
      assert Fired(rest.pending[if k < i then k else k - 1]);
      FiredTimesOut(OnConnected(rest, Ok));
    } else {
      NoDeadlineNoTimeout(OnConnected(rest, Ok));
    }
  }

  /**
   * Such a run from the start of a session: cancelling the timer does nothing to a timeout whose
   * handler is already queued.
   */
  lemma StaleConnectTimeoutShutsDown(backend: nat, idleTimeoutMs: nat)
    ensures var relaying := Run(StartedSession(backend, idleTimeoutMs),
                                [Completes(0, true, [])] + ([Completes(1, true, [])] + [Handles(1)]));
            && relaying.Some? && !relaying.value.shuttingDown && relaying.value.clientOpen
            && Step(relaying.value, Handles(0)).Some? && Step(relaying.value, Handles(0)).value.shuttingDown
  {
    var s := StartedSession(backend, idleTimeoutMs);
    var s1 := Step(s, Completes(0, true, [])).value;
    var s2 := Step(s1, Completes(1, true, [])).value;
    RunCons(s, Completes(0, true, []), [Completes(1, true, [])] + [Handles(1)]);
    RunCons(s1, Completes(1, true, []), [Handles(1)]);
    RunOne(s2, Handles(1));
    assert s2.pending[0] == Pending(ConnectTimer, Ready(Ok), 0, 0);
    assert Step(s2, Handles(1)).value.pending[0] == Pending(ConnectTimer, Ready(Ok), 0, 0);
  }
}
