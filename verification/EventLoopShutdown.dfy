/** Graceful shutdown: when the engine drains after the signal, and when it never can. */
module EventLoopShutdown {
  import opened Outcomes
  import opened Sums
  import opened Asio
  import opened ServicePools
  import opened Routing
  import opened Sessions
  import SessionLifetime
  import SessionDeadlines
  import opened HealthChecks
  import opened TcpProxies
  import opened EventLoop
  import opened EventLoopSafety

  /** The signal has been handled, and every accept that is left was aborted by the stop. */
  ghost predicate Closing(s: System) {
    s.signal.None? && forall i | 0 <= i < |s.proxy.accepts| :: s.proxy.accepts[i] == Ready(Aborted)
  }

  /** The signal has been handled, and some accept that is left was not aborted by the stop. */
  ghost predicate Lingering(s: System) {
    s.signal.None? && exists i | 0 <= i < |s.proxy.accepts| :: s.proxy.accepts[i] != Ready(Aborted)
  }

  /** Nothing is pending anywhere, so `run` returns. */
  ghost predicate OutOfWork(s: System) {
    && s.signal.None? && s.sessions == [] && s.proxy.accepts == [] && s.checker.rounds == []
    && forall k | 0 <= k < |s.checker.probes| :: s.checker.probes[k].timer.None? && s.checker.probes[k].connect.None?
  }

  /** The loop can run out of work only in a state where every connection has been given back. */
  lemma OutOfWorkMeansAllReleased(s: System)
    requires EventLoopSafety.Valid(s) && OutOfWork(s)
    ensures forall b | 0 <= b < |s.pool| :: s.pool[b].active == 0
  {}

  // ----- after the stop -----

  function InFlight(p: Probe): nat {
    if p.connect.Some? then 1 else 0
  }

  function ProbesInFlight(s: System): nat {
    Sum(s.checker.probes, InFlight)
  }

  ghost predicate Reaches(s: Session, t: Session) {
    exists events :: Run(s, events) == Some(t)
  }

  /** Each session of `after` is one of `before`, its own one, some steps further on. */
  ghost predicate Descended(before: seq<Session>, after: seq<Session>, origin: seq<nat>) {
    && |origin| == |after|
    && (forall j | 0 <= j < |after| :: origin[j] < |before| && Reaches(before[origin[j]], after[j]))
    && (forall j, k | 0 <= j < k < |after| :: origin[j] < origin[k])
  }

  ghost predicate NoneNew(before: seq<Session>, after: seq<Session>) {
    |after| <= |before| && exists origin :: Descended(before, after, origin)
  }

  lemma ReachesItself(s: Session)
    ensures Reaches(s, s)
  {
    assert Run(s, []) == Some(s);
  }

  lemma ReachesNext(s: Session, e: Sessions.Event)
    requires Step(s, e).Some?
    ensures Reaches(s, Step(s, e).value)
  {
    SessionLifetime.RunOne(s, e);
  }

  lemma ReachesThrough(s: Session, t: Session, u: Session)
    requires Reaches(s, t) && Reaches(t, u)
    ensures Reaches(s, u)
  {
    var first :| Run(s, first) == Some(t);
    var rest :| Run(t, rest) == Some(u);
    SessionLifetime.RunConcat(s, first, rest);
  }

  lemma NoneNewAtAll(sessions: seq<Session>)
    ensures NoneNew(sessions, sessions)
  {
    hide Reaches;
    forall s: Session
      ensures Reaches(s, s)
    {
      ReachesItself(s);
    }
    var origin: seq<nat> := seq(|sessions|, j => j);
    assert Descended(sessions, sessions, origin);
  }

  lemma NoneNewThrough(a: seq<Session>, b: seq<Session>, c: seq<Session>)
    requires NoneNew(a, b) && NoneNew(b, c)
    ensures NoneNew(a, c)
  {
    hide Reaches;
    var p :| Descended(a, b, p);
    var q :| Descended(b, c, q);
    var origin: seq<nat> := seq(|c|, j requires 0 <= j < |c| => p[q[j]]);
    forall j | 0 <= j < |c|
      ensures Reaches(a[origin[j]], c[j])
    {
      ReachesThrough(a[p[q[j]]], b[q[j]], c[j]);
    }
    assert Descended(a, c, origin);
  }

  lemma NoneNewInSession(s: System, i: nat, e: Sessions.Event)
    requires Enabled(s, InSession(i, e))
    ensures NoneNew(s.sessions, Next(s, InSession(i, e)).sessions)
  {
    hide Reaches, Step;
    var next := Step(s.sessions[i], e).value;
    forall s: Session
      ensures Reaches(s, s)
    {
      ReachesItself(s);
    }
    ReachesNext(s.sessions[i], e);
    var all: seq<nat> := seq(|s.sessions|, j => j);
    var origin := if next.pending == [] then Removed(all, i) else all;
    assert Descended(s.sessions, Next(s, InSession(i, e)).sessions, origin);
  }

  /** No session and no probe is ever created again, and each further result uses up a probe in flight. */
  lemma ClosingStepAddsNothing(s: System, e: LoopEvent)
    requires EventLoopSafety.Valid(s) && Closing(s) && Enabled(s, e)
    ensures Closing(Next(s, e))
    ensures NoneNew(s.sessions, Next(s, e).sessions) && |Next(s, e).checker.probes| == |s.checker.probes|
    ensures |Next(s, e).checker.reports| + ProbesInFlight(Next(s, e)) == |s.checker.reports| + ProbesInFlight(s)
  {
    hide Step, Sessions.Valid, Reflects, ResultsOf, Reported, Descended;
    var t := Next(s, e);
    NoneNewAtAll(s.sessions);
    match e
    case InSession(i, e) => NoneNewInSession(s, i, e);
    case HandlesAccept(i, choice) => assert s.sessions + [] == s.sessions;
    case ProbeTimerFires(k) => SumUpdate(s.checker.probes, k, t.checker.probes[k], InFlight);
    case ProbeConnects(k, ok) => SumUpdate(s.checker.probes, k, t.checker.probes[k], InFlight);
    case HandlesProbeTimer(k) => SumUpdate(s.checker.probes, k, t.checker.probes[k], InFlight);
    case HandlesProbeConnect(k) => SumUpdate(s.checker.probes, k, t.checker.probes[k], InFlight);
    case _ =>
  }

  lemma {:induction false} NothingNewAfterStop(s: System, events: seq<LoopEvent>)
    requires EventLoopSafety.Valid(s) && Closing(s) && IsRun(s, events)
    ensures var t := After(s, events);
            && Closing(t) && NoneNew(s.sessions, t.sessions) && |t.checker.probes| == |s.checker.probes|
            && |t.checker.reports| + ProbesInFlight(t) == |s.checker.reports| + ProbesInFlight(s)
    decreases |events|
  {
    hide EventLoopSafety.Valid, Closing, Enabled, Next, Descended;
    if events == [] {
      NoneNewAtAll(s.sessions);
    } else {
      EventKeepsValid(s, events[0]);
      ClosingStepAddsNothing(s, events[0]);
      NothingNewAfterStop(Next(s, events[0]), events[1..]);
      NoneNewThrough(s.sessions, Next(s, events[0]).sessions, After(s, events).sessions);
    }
  }

  // ----- draining -----

  function StatusWork(w: Status): nat {
    if w.Waiting? then 2 else 1
  }

  function StageWork(w: Option<Status>): nat {
    if w.None? then 0 else StatusWork(w.value)
  }

  function ProbeWork(p: Probe): nat {
    StageWork(p.timer) + StageWork(p.connect)
  }

  function TotalWork(s: System): nat {
    Sum(s.sessions, SessionLifetime.WorkLeft) + Sum(s.proxy.accepts, StatusWork)
    + Sum(s.checker.rounds, StatusWork) + Sum(s.checker.probes, ProbeWork)
  }

  ghost predicate NoneLive(s: System) {
    forall i | 0 <= i < |s.sessions| :: !SessionLifetime.Live(s.sessions[i])
  }

  lemma SessionEventUsesWork(s: System, i: nat, e: Sessions.Event)
    requires SessionsValid(s) && NoneLive(s) && Enabled(s, InSession(i, e))
    ensures NoneLive(Next(s, InSession(i, e))) && TotalWork(Next(s, InSession(i, e))) < TotalWork(s)
  {
    hide Step, Sessions.Valid, SessionLifetime.WorkLeft, SessionLifetime.Live;
    var next := Step(s.sessions[i], e).value;
    assert SessionValid(s.sessions[i], |s.pool|, s.idleTimeoutMs);
    SessionLifetime.DeadEventUsesWork(s.sessions[i], e);
    SumUpdate(s.sessions, i, next, SessionLifetime.WorkLeft);
    SumRemove(s.sessions, i, SessionLifetime.WorkLeft);
  }

  /** Once the accepts are closing and no session is live, every event uses up work. */
  lemma ClosingStepUsesWork(s: System, e: LoopEvent)
    requires EventLoopSafety.Valid(s) && Closing(s) && NoneLive(s) && Enabled(s, e)
    ensures NoneLive(Next(s, e)) && TotalWork(Next(s, e)) < TotalWork(s)
  {
    hide Step, Sessions.Valid, Reflects, ResultsOf, Reported, SessionLifetime.WorkLeft, SessionLifetime.Live;
    var t := Next(s, e);
    match e
    case InSession(i, e) => SessionEventUsesWork(s, i, e);
    case HandlesAccept(i, choice) =>
      SumRemove(s.proxy.accepts, i, StatusWork);
      assert s.sessions + [] == s.sessions;
    case RoundFires(i) => SumUpdate(s.checker.rounds, i, Ready(Ok), StatusWork);
    case HandlesRound(i) => SumRemove(s.checker.rounds, i, StatusWork);
    case ProbeTimerFires(k) => SumUpdate(s.checker.probes, k, t.checker.probes[k], ProbeWork);
    case ProbeConnects(k, ok) => SumUpdate(s.checker.probes, k, t.checker.probes[k], ProbeWork);
    case HandlesProbeTimer(k) => SumUpdate(s.checker.probes, k, t.checker.probes[k], ProbeWork);
    case HandlesProbeConnect(k) => SumUpdate(s.checker.probes, k, t.checker.probes[k], ProbeWork);
    case _ =>
  }

  /** From then on every run is finite, in any order of completions and handlers. */
  lemma {:induction false} DrainsInBoundedTime(s: System, events: seq<LoopEvent>)
    requires EventLoopSafety.Valid(s) && Closing(s) && NoneLive(s) && IsRun(s, events)
    ensures |events| + TotalWork(After(s, events)) <= TotalWork(s)
    decreases |events|
  {
    hide EventLoopSafety.Valid, Closing, NoneLive, Enabled, Next, TotalWork;
    if events != [] {
      EventKeepsValid(s, events[0]);
      ClosingStepAddsNothing(s, events[0]);
      ClosingStepUsesWork(s, events[0]);
      DrainsInBoundedTime(Next(s, events[0]), events[1..]);
    }
  }

  // ----- reaching the end -----

  lemma {:induction false} RunConcat(s: System, a: seq<LoopEvent>, b: seq<LoopEvent>)
    requires IsRun(s, a) && IsRun(After(s, a), b)
    ensures IsRun(s, a + b) && After(s, a + b) == After(After(s, a), b)
    decreases |a|
  {
    hide Enabled, Next;
    if a == [] {
      assert a + b == b;
    } else {
      assert (a + b)[0] == a[0] && (a + b)[1..] == a[1..] + b;
      RunConcat(Next(s, a[0]), a[1..], b);
    }
  }

  lemma RunOne(s: System, e: LoopEvent)
    requires Enabled(s, e)
    ensures IsRun(s, [e]) && After(s, [e]) == Next(s, e)
  {
    hide Enabled, Next;
    assert [e][1..] == [];
  }

  /** A run that ends one session is a run of the whole engine that removes it. */
  lemma {:induction false} EndSession(s: System, i: nat, events: seq<Sessions.Event>) returns (lifted: seq<LoopEvent>)
    requires EventLoopSafety.Valid(s) && i < |s.sessions|
    requires Run(s.sessions[i], events).Some? && Run(s.sessions[i], events).value.pending == []
    ensures IsRun(s, lifted)
    ensures After(s, lifted).sessions == Removed(s.sessions, i)
    ensures After(s, lifted).proxy == s.proxy && After(s, lifted).checker == s.checker
    ensures After(s, lifted).signal == s.signal
    decreases |events|
  {
    hide Step, Sessions.Valid, Reflects, ResultsOf;
    var session := s.sessions[i];
    assert SessionValid(session, |s.pool|, s.idleTimeoutMs);
    var e := InSession(i, events[0]);
    var next := Step(session, events[0]).value;
    SessionDeadlines.StepKeepsConfiguration(session, events[0]);
    RunOne(s, e);
    if next.pending == [] {
      return [e];
    }
    SessionEventKeepsValid(s, i, events[0]);
    var rest := EndSession(Next(s, e), i, events[1..]);
    assert Removed(s.sessions[i := next], i) == Removed(s.sessions, i);
    RunConcat(s, [e], rest);
    lifted := [e] + rest;
  }

  /** Some answer is always right. */
  lemma SomeAnswer(health: seq<bool>) returns (r: Result<nat, RoutingError>)
    ensures Answers(health, r)
  {
    if |health| == 0 {
      r := Failure(PoolEmpty);
    } else if |HealthyIndices(health)| == 0 {
      r := Failure(NoHealthyServices);
    } else {
      var i :| i in HealthyIndices(health);
      r := Success(i);
    }
  }

  /** Some event is enabled until nothing is left; a session is left alone once all are gone. */
  lemma SomeEvent(s: System) returns (e: LoopEvent)
    requires EventLoopSafety.Valid(s) && !OutOfWork(s)
    ensures Enabled(s, e)
    ensures s.signal.None? && s.sessions == [] ==> !e.InSession?
  {
    hide Sessions.Valid, Reflects, ResultsOf, Answers, Step;
    if s.signal.Some? {
      e := if s.signal.value.Waiting? then SignalArrives else HandlesSignal;
    } else if s.sessions != [] {
      assert SessionValid(s.sessions[0], |s.pool|, s.idleTimeoutMs);
      var nudge := SessionLifetime.Nudge(s.sessions[0]);
      SessionLifetime.NeverStuck(s.sessions[0]);
      SessionDeadlines.StepKeepsConfiguration(s.sessions[0], nudge);
      e := InSession(0, nudge);
    } else if s.proxy.accepts != [] {
      var choice := SomeAnswer(HealthOf(s.pool));
      e := HandlesAccept(0, choice);
    } else if s.checker.rounds != [] {
      e := HandlesRound(0);
    } else {
      var k :| 0 <= k < |s.checker.probes| && (s.checker.probes[k].timer.Some? || s.checker.probes[k].connect.Some?);
      var p := s.checker.probes[k];
      if p.timer.Some? {
        e := if p.timer.value.Waiting? then ProbeTimerFires(k) else HandlesProbeTimer(k);
      } else {
        e := HandlesProbeConnect(k);
      }
    }
  }

  /** A run that can go no further has drained the engine. */
  lemma StuckMeansDrained(s: System)
    requires EventLoopSafety.Valid(s) && forall e :: !Enabled(s, e)
    ensures OutOfWork(s)
  {
    hide EventLoopSafety.Valid, Enabled;
    if !OutOfWork(s) {
      var e := SomeEvent(s);
    }
  }

  /** From every closing state some run drains the engine. */
  lemma CanDrain(s: System) returns (events: seq<LoopEvent>)
    requires EventLoopSafety.Valid(s) && Closing(s)
    ensures IsRun(s, events) && OutOfWork(After(s, events))
    decreases |s.sessions|, TotalWork(s)
  {
    if OutOfWork(s) {
      return [];
    }
    var first: seq<LoopEvent>;
    if s.sessions != [] {
      assert SessionValid(s.sessions[0], |s.pool|, s.idleTimeoutMs);
      var end := SessionLifetime.CanAlwaysEnd(s.sessions[0]);
      first := EndSession(s, 0, end);
    } else {
      var e := SomeEvent(s);
      RunOne(s, e);
      ClosingStepUsesWork(s, e);
      ClosingStepAddsNothing(s, e);
      first := [e];
    }
    EventLoopSafety.RunKeepsValid(s, first);
    NothingNewAfterStop(s, first);
    var rest := CanDrain(After(s, first));
    RunConcat(s, first, rest);
    events := first + rest;
  }

  // ----- never reaching the end -----

  /** Handling an accept that was not aborted starts another, which fails at once on the closed acceptor. */
  lemma LingeringIsKept(s: System, e: LoopEvent)
    requires EventLoopSafety.Valid(s) && Lingering(s) && Enabled(s, e)
    ensures Lingering(Next(s, e))
  {
    hide Step, Sessions.Valid, Reflects, ResultsOf, Reported, Answers;
    var i :| 0 <= i < |s.proxy.accepts| && s.proxy.accepts[i] != Ready(Aborted);
    var t := Next(s, e);
    match e
    case HandlesAccept(j, choice) =>
      if i == j {
        assert t.proxy.accepts[|t.proxy.accepts| - 1] == Ready(OtherError);
      } else {
        assert t.proxy.accepts[if i < j then i else i - 1] == s.proxy.accepts[i];
      }
    case _ =>
  }

  lemma {:induction false} LingersForever(s: System, events: seq<LoopEvent>)
    requires EventLoopSafety.Valid(s) && Lingering(s) && IsRun(s, events)
    ensures Lingering(After(s, events)) && !OutOfWork(After(s, events))
    decreases |events|
  {
    hide EventLoopSafety.Valid, Enabled, Next;
    if events != [] {
      EventKeepsValid(s, events[0]);
      LingeringIsKept(s, events[0]);
      LingersForever(Next(s, events[0]), events[1..]);
    }
  }

  ghost predicate MayDrain(s: System) {
    exists events :: IsRun(s, events) && OutOfWork(After(s, events))
  }

  /**
   * Graceful shutdown works exactly when, as the signal is handled, the pending accept has not
   * completed yet. If it has, well or badly, the accept chain re-arms itself for ever on the
   * closed acceptor and the loop never runs out of work.
   */
  lemma DrainsExactlyIfAcceptStillWaits(s: System)
    requires EventLoopSafety.Valid(s) && Enabled(s, HandlesSignal)
    ensures |s.proxy.accepts| == 1
    ensures MayDrain(Next(s, HandlesSignal)) <==> s.proxy.accepts[0] == Waiting
  {
    var t := Next(s, HandlesSignal);
    SignalKeepsValid(s);
    if s.proxy.accepts[0] == Waiting {
      assert Closing(t);
      var events := CanDrain(t);
    } else {
      assert t.proxy.accepts[0] != Ready(Aborted);
      assert Lingering(t);
      forall events | IsRun(t, events)
        ensures !OutOfWork(After(t, events))
      {
        LingersForever(t, events);
      }
    }
  }

  /** And that can happen: an accept completes, and the signal arrives before its handler has run. */
  lemma ShutdownCanFail(services: nat, idleTimeoutMs: nat, threshold: nat, checking: bool)
    ensures var s := Initial(services, idleTimeoutMs, threshold, checking);
            var events := [AcceptCompletes(0, true)] + [SignalArrives];
            && IsRun(s, events) && Enabled(After(s, events), HandlesSignal)
            && !MayDrain(Next(After(s, events), HandlesSignal))
  {
    var s := Initial(services, idleTimeoutMs, threshold, checking);
    InitiallyValid(services, idleTimeoutMs, threshold, checking);
    var s1 := Next(s, AcceptCompletes(0, true));
    RunOne(s, AcceptCompletes(0, true));
    RunOne(s1, SignalArrives);
    RunConcat(s, [AcceptCompletes(0, true)], [SignalArrives]);
    EventLoopSafety.RunKeepsValid(s, [AcceptCompletes(0, true)] + [SignalArrives]);
    DrainsExactlyIfAcceptStillWaits(Next(s1, SignalArrives));
  }

  // ----- must it drain? -----

  ghost predicate NoRunLonger(s: System, n: nat) {
    forall events | IsRun(s, events) :: |events| <= n
  }

  /** Every run is finite, with a common bound; the maximal ones then drain the engine. */
  ghost predicate MustDrain(s: System) {
    exists n: nat :: NoRunLonger(s, n)
  }

  /** A live session keeps the engine going with an event that leaves it live. */
  lemma LiveEvent(s: System, i: nat) returns (e: LoopEvent)
    requires EventLoopSafety.Valid(s) && i < |s.sessions| && SessionLifetime.Live(s.sessions[i])
    ensures Enabled(s, e) && EventLoopSafety.Valid(Next(s, e))
    ensures i < |Next(s, e).sessions| && SessionLifetime.Live(Next(s, e).sessions[i])
  {
    assert SessionValid(s.sessions[i], |s.pool|, s.idleTimeoutMs);
    hide Step, Sessions.Valid, SessionLifetime.Live, Reflects, ResultsOf;
    var step := SessionLifetime.LiveEvent(s.sessions[i]);
    SessionDeadlines.StepKeepsConfiguration(s.sessions[i], step);
    e := InSession(i, step);
    hide EventLoopSafety.Valid;
    SessionEventKeepsValid(s, i, step);
  }

  lemma {:induction false} LiveRun(s: System, i: nat, n: nat) returns (events: seq<LoopEvent>)
    requires EventLoopSafety.Valid(s) && i < |s.sessions| && SessionLifetime.Live(s.sessions[i])
    ensures IsRun(s, events) && |events| == n
    decreases n
  {
    if n == 0 {
      return [];
    }
    hide EventLoopSafety.Valid, SessionLifetime.Live, Enabled, Next;
    var e := LiveEvent(s, i);
    RunOne(s, e);
    var rest := LiveRun(Next(s, e), i, n - 1);
    RunConcat(s, [e], rest);
    events := [e] + rest;
  }

  lemma {:induction false} LingeringRun(s: System, n: nat) returns (events: seq<LoopEvent>)
    requires EventLoopSafety.Valid(s) && Lingering(s)
    ensures IsRun(s, events) && |events| == n
    decreases n
  {
    if n == 0 {
      return [];
    }
    assert !OutOfWork(s);
    hide EventLoopSafety.Valid, Lingering, Enabled, Next;
    var e := SomeEvent(s);
    EventKeepsValid(s, e);
    LingeringIsKept(s, e);
    RunOne(s, e);
    var rest := LingeringRun(Next(s, e), n - 1);
    RunConcat(s, [e], rest);
    events := [e] + rest;
  }

  /** With the accepts closing, the runs are bounded exactly if no session is live. */
  lemma ClosingBoundedExactlyIfNoneLive(s: System)
    requires EventLoopSafety.Valid(s) && Closing(s)
    ensures MustDrain(s) <==> NoneLive(s)
  {
    hide EventLoopSafety.Valid, Closing, SessionLifetime.Live, TotalWork;
    if NoneLive(s) {
      forall events | IsRun(s, events)
        ensures |events| <= TotalWork(s)
      {
        DrainsInBoundedTime(s, events);
      }
      assert NoRunLonger(s, TotalWork(s));
    } else {
      var i :| 0 <= i < |s.sessions| && SessionLifetime.Live(s.sessions[i]);
      forall n: nat
        ensures !NoRunLonger(s, n)
      {
        var events := LiveRun(s, i, n + 1);
      }
    }
  }

  /** The signal forces the engine to drain exactly if the accept still waits and no session is live. */
  lemma MustDrainExactly(s: System)
    requires EventLoopSafety.Valid(s) && Enabled(s, HandlesSignal)
    ensures |s.proxy.accepts| == 1
    ensures MustDrain(Next(s, HandlesSignal)) <==> s.proxy.accepts[0] == Waiting && NoneLive(s)
  {
    var t := Next(s, HandlesSignal);
    SignalKeepsValid(s);
    if s.proxy.accepts[0] == Waiting {
      assert Closing(t);
      ClosingBoundedExactlyIfNoneLive(t);
    } else {
      assert t.proxy.accepts[0] != Ready(Aborted);
      assert Lingering(t);
      forall n: nat
        ensures !NoRunLonger(t, n)
      {
        var events := LingeringRun(t, n + 1);
      }
    }
  }

  /** One connection accepted, and the signal arrived; its backend connect is under way. */
  lemma FirstSession(s: System) returns (t: System)
    requires s.pool != [] && s.sessions == [] && s.proxy == Proxy(true, [Waiting]) && s.signal == Some(Waiting)
    requires forall b | 0 <= b < |s.pool| :: s.pool[b].healthy
    ensures var events := [AcceptCompletes(0, true)] + ([HandlesAccept(0, Success(0))] + [SignalArrives]);
            IsRun(s, events) && After(s, events) == t
    ensures Enabled(t, HandlesSignal) && t.proxy.accepts == [Waiting]
    ensures t.sessions == [StartedSession(0, s.idleTimeoutMs)]
  {
    var accept: LoopEvent := HandlesAccept(0, Success(0));
    var s1 := Next(s, AcceptCompletes(0, true));
    assert 0 in HealthyIndices(HealthOf(s1.pool));
    var s2 := Next(s1, accept);
    t := Next(s2, SignalArrives);
    assert Enabled(s1, accept) && Enabled(s2, SignalArrives);
    assert t.sessions == [StartedSession(0, s.idleTimeoutMs)] && t.proxy.accepts == [Waiting];
    hide Enabled, Next;
    RunOne(s, AcceptCompletes(0, true));
    RunOne(s1, accept);
    RunOne(s2, SignalArrives);
    RunConcat(s1, [accept], [SignalArrives]);
    RunConcat(s, [AcceptCompletes(0, true)], [accept] + [SignalArrives]);
  }

  lemma StartedIsLive(backend: nat, idleTimeoutMs: nat)
    ensures SessionLifetime.Live(StartedSession(backend, idleTimeoutMs))
  {
    assert SessionLifetime.Promising(StartedSession(backend, idleTimeoutMs).pending[1]);
  }

  /** So a session under way when the signal comes may keep an engine up that could drain. */
  lemma LiveSessionKeepsEngineUp(services: nat, idleTimeoutMs: nat, threshold: nat, checking: bool)
    requires services > 0
    ensures var s := Initial(services, idleTimeoutMs, threshold, checking);
            var events := [AcceptCompletes(0, true)] + ([HandlesAccept(0, Success(0))] + [SignalArrives]);
            && IsRun(s, events) && Enabled(After(s, events), HandlesSignal)
            && MayDrain(Next(After(s, events), HandlesSignal)) && !MustDrain(Next(After(s, events), HandlesSignal))
  {
    var s := Initial(services, idleTimeoutMs, threshold, checking);
    InitiallyValid(services, idleTimeoutMs, threshold, checking);
    var t := FirstSession(s);
    hide EventLoopSafety.Valid, SessionLifetime.Live, Enabled, Next, MayDrain, MustDrain, IsRun;
    EventLoopSafety.RunKeepsValid(s, [AcceptCompletes(0, true)] + ([HandlesAccept(0, Success(0))] + [SignalArrives]));
    StartedIsLive(0, idleTimeoutMs);
    assert SessionLifetime.Live(t.sessions[0]);
    DrainsExactlyIfAcceptStillWaits(t);
    MustDrainExactly(t);
  }
}
