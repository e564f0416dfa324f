/** What holds in every reachable state of the engine. */
module EventLoopSafety {
  import opened Outcomes
  import opened Sums
  import opened Asio
  import opened ServicePools
  import opened Routing
  import opened Sessions
  import SessionSafety
  import SessionDeadlines
  import opened HealthChecks
  import opened TcpProxies
  import opened EventLoop

  // ----- connection counts -----

  function BoundTo(b: nat): Session -> nat {
    (s: Session) => if s.backend == b then 1 else 0
  }

  /** Each service's active count is the number of live sessions bound to it. */
  ghost predicate CountsExact(s: System) {
    forall b | 0 <= b < |s.pool| :: s.pool[b].active == Sum(s.sessions, BoundTo(b))
  }

  /** Every live session is in order, and something pending holds it. */
  ghost predicate SessionsValid(s: System) {
    forall i | 0 <= i < |s.sessions| ::
      SessionValid(s.sessions[i], |s.pool|, s.idleTimeoutMs)
  }

  ghost predicate SessionValid(session: Session, services: nat, idleTimeoutMs: nat) {
    && Sessions.Valid(session) && session.backend < services && session.pending != []
    && session.idleTimeoutMs == idleTimeoutMs
  }

  // ----- the rest -----

  /** While the acceptor is open there is one accept, and nobody has aborted it; the signal closes it. */
  ghost predicate ProxyValid(s: System) {
    && (s.proxy.acceptorOpen <==> s.signal.Some?)
    && (s.proxy.acceptorOpen ==> |s.proxy.accepts| == 1 && s.proxy.accepts[0] != Ready(Aborted))
    && (!s.proxy.acceptorOpen ==> forall i | 0 <= i < |s.proxy.accepts| :: s.proxy.accepts[i].Ready?)
    && (s.signal.Some? ==> s.signal.value != Ready(Aborted) && s.signal.value != Ready(OtherError))
  }

  /**
   * A checker that runs always has its one next round to come; a stopped one waits for none.
   * Each probe is of a service of the pool, and will end.
   */
  ghost predicate CheckerValid(s: System) {
    && (s.signal.None? ==> s.checker.stopped)
    && (!s.checker.stopped ==> s.checker.rounds == [Waiting] || s.checker.rounds == [Ready(Ok)])
    && (s.checker.stopped ==> forall i | 0 <= i < |s.checker.rounds| :: s.checker.rounds[i].Ready?)
    && forall k | 0 <= k < |s.checker.probes| ::
         s.checker.probes[k].index < |s.pool| && ProbeValid(s.checker.probes[k])
  }

  /** Every service's counter and flag say what its results, in completion order, imply. */
  ghost predicate HealthExact(s: System) {
    forall b | 0 <= b < |s.pool| :: Reflects(s.pool[b], ResultsOf(s.checker.reports, b), s.checker.threshold)
  }

  ghost predicate Valid(s: System) {
    SessionsValid(s) && CountsExact(s) && ProxyValid(s) && CheckerValid(s) && HealthExact(s)
  }

  // ----- sessions come and go -----

  lemma CountingKeepsCounts(s: System, b: nat, idleTimeoutMs: nat)
    requires SessionsValid(s) && CountsExact(s) && b < |s.pool| && idleTimeoutMs == s.idleTimeoutMs
    ensures var t := s.(pool := Count(s.pool, b), sessions := s.sessions + [StartedSession(b, idleTimeoutMs)]);
            SessionsValid(t) && CountsExact(t)
  {
    var session := StartedSession(b, idleTimeoutMs);
    SessionSafety.StartIsValid(b, idleTimeoutMs);
    assert SessionValid(session, |s.pool|, s.idleTimeoutMs);
    forall c | 0 <= c < |s.pool|
      ensures Count(s.pool, b)[c].active == Sum(s.sessions + [session], BoundTo(c))
    {
      SumAppend(s.sessions, session, BoundTo(c));
    }
  }

  /** A session step keeps its backend and its validity; the last handler gone, its count is returned. */
  lemma SessionStepKeepsCounts(s: System, i: nat, e: Sessions.Event)
    requires SessionsValid(s) && CountsExact(s) && Enabled(s, InSession(i, e))
    ensures var t := Next(s, InSession(i, e));
            SessionsValid(t) && CountsExact(t)
    ensures s.pool[s.sessions[i].backend].active > 0
  {
    hide Step, Sessions.Valid;
    var old_, next := s.sessions[i], Step(s.sessions[i], e).value;
    assert SessionValid(old_, |s.pool|, s.idleTimeoutMs);
    SessionSafety.StepKeepsValid(old_, e);
    SessionDeadlines.StepKeepsConfiguration(old_, e);
    SumOne(s.sessions, i, BoundTo(old_.backend));
    forall b | 0 <= b < |s.pool|
      ensures Sum(s.sessions[i := next], BoundTo(b)) == Sum(s.sessions, BoundTo(b))
      ensures Sum(Removed(s.sessions, i), BoundTo(b))
           == Sum(s.sessions, BoundTo(b)) - if b == next.backend then 1 else 0
    {
      SumUpdate(s.sessions, i, next, BoundTo(b));
      SumRemove(s.sessions, i, BoundTo(b));
    }
    if next.pending != [] {
      assert SessionValid(next, |s.pool|, s.idleTimeoutMs);
    }
  }

  // ----- health -----

  lemma ResultsAfterReport(reports: seq<Report>, r: Report, b: nat)
    ensures ResultsOf(reports + [r], b)
         == if r.index == b then ResultsOf(reports, b) + [r.ok] else ResultsOf(reports, b)
  {
    assert (reports + [r])[..|reports|] == reports;
  }

  lemma ReportKeepsHealth(s: System, k: nat)
    requires HealthExact(s) && Enabled(s, HandlesProbeConnect(k))
    ensures HealthExact(HandleProbeConnect(s, k))
  {
    var p := s.checker.probes[k];
    var ok := p.connect.value.ec == Ok;
    var reports := HandleProbeConnect(s, k).checker.reports;
    assert reports == s.checker.reports + [Report(p.index, ok)];
    forall b | 0 <= b < |s.pool|
      ensures Reflects(HandleProbeConnect(s, k).pool[b], ResultsOf(reports, b), s.checker.threshold)
    {
      ResultsAfterReport(s.checker.reports, Report(p.index, ok), b);
      assert Reflects(s.pool[b], ResultsOf(s.checker.reports, b), s.checker.threshold);
      if b == p.index {
        ResultKeepsReflecting(s.pool[b], ResultsOf(s.checker.reports, b), ok, s.checker.threshold);
      }
    }
  }

  /** Changing only how many connections a service has leaves its health as it was. */
  lemma CountsDoNotTouchHealth(s: System, t: System)
    requires HealthExact(s) && |t.pool| == |s.pool|
    requires t.checker.reports == s.checker.reports && t.checker.threshold == s.checker.threshold
    requires forall b | 0 <= b < |s.pool| ::
               t.pool[b].failures == s.pool[b].failures && t.pool[b].healthy == s.pool[b].healthy
    ensures HealthExact(t)
  {
    hide LastAllFailed, TrailingFailures, ResultsOf;
    forall b | 0 <= b < |t.pool|
      ensures Reflects(t.pool[b], ResultsOf(t.checker.reports, b), t.checker.threshold)
    {
      assert Reflects(s.pool[b], ResultsOf(s.checker.reports, b), s.checker.threshold);
    }
  }

  /** A round that runs probes every service anew and arms the next; once stopped, none does. */
  lemma RoundKeepsChecker(s: System, i: nat)
    requires CheckerValid(s) && Enabled(s, HandlesRound(i))
    ensures CheckerValid(Next(s, HandlesRound(i)))
    ensures var before, after := s.checker, Next(s, HandlesRound(i)).checker;
            if before.stopped then after.probes == before.probes
            else
              && |after.probes| == |before.probes| + |s.pool|
              && after.rounds == [Waiting]
              && forall b | 0 <= b < |s.pool| ::
                   after.probes[|before.probes| + b] == NewProbe(b)
  {
    RoundProbesEveryService(0, |s.pool|);
  }

  // ----- every event -----

  lemma AcceptKeepsValid(s: System, i: nat, choice: Result<nat, RoutingError>)
    requires Valid(s) && Enabled(s, HandlesAccept(i, choice))
    ensures Valid(Next(s, HandlesAccept(i, choice)))
  {
    hide Sessions.Valid, Reflects, ResultsOf;
    var t := Next(s, HandlesAccept(i, choice));
    if s.proxy.accepts[i].ec == Ok && choice.Success? {
      CountingKeepsCounts(s, choice.value, s.idleTimeoutMs);
    } else {
      assert s.sessions + [] == s.sessions;
    }
    CountsDoNotTouchHealth(s, t);
  }

  lemma SessionEventKeepsValid(s: System, i: nat, e: Sessions.Event)
    requires Valid(s) && Enabled(s, InSession(i, e))
    ensures Valid(Next(s, InSession(i, e)))
  {
    hide Step, Sessions.Valid, Reflects, ResultsOf;
    SessionStepKeepsCounts(s, i, e);
    CountsDoNotTouchHealth(s, Next(s, InSession(i, e)));
  }

  lemma SamePoolAndSessions(s: System, t: System)
    requires t.pool == s.pool && t.sessions == s.sessions && t.idleTimeoutMs == s.idleTimeoutMs && SessionsValid(s)
    ensures SessionsValid(t)
  {}

  lemma SetProbeKeepsValid(s: System, k: nat, p: Probe)
    requires Valid(s) && k < |s.checker.probes| && p.index == s.checker.probes[k].index && ProbeValid(p)
    ensures Valid(SetProbe(s, k, p))
  {
    hide SessionsValid, HealthExact, ProbeValid;
    CountsDoNotTouchHealth(s, SetProbe(s, k, p));
    SamePoolAndSessions(s, SetProbe(s, k, p));
  }

  /** A probe stays in order as its timer or connect completes, and as its timer or connect is handled. */
  lemma ProbeStepsKeepValid(p: Probe)
    requires ProbeValid(p)
    ensures p.timer == Some(Waiting) ==> ProbeValid(p.(timer := Some(Ready(Ok))))
    ensures forall ec | ec != Aborted && p.connect == Some(Waiting) :: ProbeValid(p.(connect := Some(Ready(ec))))
    ensures p.timer.Some? && p.timer.value.Ready? ==> ProbeValid(OnProbeTimer(p, p.timer.value.ec))
    ensures p.connect.Some? && p.connect.value.Ready? ==> ProbeValid(OnProbeConnected(p, p.connect.value.ec))
    ensures forall ec :: OnProbeTimer(p, ec).open <==> p.open && ec != Ok
    ensures forall ec :: OnProbeConnected(p, ec).open <==> p.open && ec != Ok
  {}

  /** A result changes only the health of one service, not its connections. */
  lemma ReportKeepsRest(s: System, k: nat)
    requires Valid(s) && Enabled(s, HandlesProbeConnect(k))
    ensures var t := HandleProbeConnect(s, k);
            SessionsValid(t) && CountsExact(t) && ProxyValid(t) && CheckerValid(t)
  {
    hide Sessions.Valid, HealthExact, ProbeValid;
    ProbeStepsKeepValid(s.checker.probes[k]);
  }

  lemma CheckerEventKeepsValid(s: System, e: LoopEvent)
    requires Valid(s) && Enabled(s, e)
    requires e.RoundFires? || e.HandlesRound? || e.ProbeTimerFires? || e.ProbeConnects?
             || e.HandlesProbeTimer? || e.HandlesProbeConnect?
    ensures Valid(Next(s, e))
  {
    hide SessionsValid, HealthExact, Reported, ProbeValid;
    match e
    case RoundFires(i) =>
      CountsDoNotTouchHealth(s, Next(s, e));
      SamePoolAndSessions(s, Next(s, e));
    case HandlesRound(i) =>
      RoundKeepsChecker(s, i);
      CountsDoNotTouchHealth(s, Next(s, e));
      SamePoolAndSessions(s, Next(s, e));
    case HandlesProbeConnect(k) =>
      ReportKeepsHealth(s, k);
      ReportKeepsRest(s, k);
    case ProbeTimerFires(k) =>
      ProbeStepsKeepValid(s.checker.probes[k]);
      SetProbeKeepsValid(s, k, s.checker.probes[k].(timer := Some(Ready(Ok))));
    case ProbeConnects(k, ok) =>
      ProbeStepsKeepValid(s.checker.probes[k]);
      SetProbeKeepsValid(s, k, s.checker.probes[k].(connect := Some(Ready(if ok then Ok else OtherError))));
    case HandlesProbeTimer(k) =>
      ProbeStepsKeepValid(s.checker.probes[k]);
      SetProbeKeepsValid(s, k, OnProbeTimer(s.checker.probes[k], s.checker.probes[k].timer.value.ec));
  }

  lemma SignalKeepsValid(s: System)
    requires Valid(s) && Enabled(s, HandlesSignal)
    ensures Valid(OnSignal(s))
  {
    hide Sessions.Valid, Reflects, ResultsOf;
  }

  lemma EventKeepsValid(s: System, e: LoopEvent)
    requires Valid(s) && Enabled(s, e)
    ensures Valid(Next(s, e))
  {
    match e
    case SignalArrives => hide Sessions.Valid, Reflects, ResultsOf;
    case HandlesSignal => SignalKeepsValid(s);
    case AcceptCompletes(i, ok) => hide Sessions.Valid, Reflects, ResultsOf;
    case HandlesAccept(i, choice) => AcceptKeepsValid(s, i, choice);
    case InSession(i, e) => SessionEventKeepsValid(s, i, e);
    case _ => CheckerEventKeepsValid(s, e);
  }

  lemma InitiallyValid(services: nat, idleTimeoutMs: nat, threshold: nat, checking: bool)
    ensures Valid(Initial(services, idleTimeoutMs, threshold, checking))
  {
    var s := Initial(services, idleTimeoutMs, threshold, checking);
    forall b | 0 <= b < services
      ensures s.pool[b].active == Sum(s.sessions, BoundTo(b))
      ensures Reflects(s.pool[b], ResultsOf(s.checker.reports, b), threshold)
    {
      NewServiceReflects(threshold);
    }
  }

  lemma {:induction false} RunKeepsValid(s: System, events: seq<LoopEvent>)
    requires Valid(s) && IsRun(s, events)
    ensures Valid(After(s, events))
    decreases |events|
  {
    hide Valid, Enabled, Next;
    if events != [] {
      EventKeepsValid(s, events[0]);
      RunKeepsValid(Next(s, events[0]), events[1..]);
    }
  }

  /**
   * In every reachable state, each service's active count equals its live sessions: no count is
   * lost or doubled on any path.
   */
  lemma ActiveCountsAreLiveSessions(
    services: nat, idleTimeoutMs: nat, threshold: nat, checking: bool, events: seq<LoopEvent>)
    requires IsRun(Initial(services, idleTimeoutMs, threshold, checking), events)
    ensures CountsExact(After(Initial(services, idleTimeoutMs, threshold, checking), events))
  {
    InitiallyValid(services, idleTimeoutMs, threshold, checking);
    RunKeepsValid(Initial(services, idleTimeoutMs, threshold, checking), events);
  }

  /** Hence the guard against decrementing zero never fires: whoever is destroyed was counted. */
  lemma DecrementGuardNeverFires(s: System, i: nat, e: Sessions.Event)
    requires Valid(s) && Enabled(s, InSession(i, e))
    requires Step(s.sessions[i], e).value.pending == []
    ensures s.pool[s.sessions[i].backend].active > 0
    ensures var b := s.sessions[i].backend;
            Next(s, InSession(i, e)).pool == s.pool[b := s.pool[b].(active := s.pool[b].active - 1)]
  {
    hide Step;
    SessionStepKeepsCounts(s, i, e);
    SessionDeadlines.StepKeepsConfiguration(s.sessions[i], e);
  }

  /** In every reachable state a service is healthy unless its latest results, enough of them, all failed. */
  lemma HealthFollowsResults(
    services: nat, idleTimeoutMs: nat, threshold: nat, checking: bool, events: seq<LoopEvent>, b: nat)
    requires IsRun(Initial(services, idleTimeoutMs, threshold, checking), events) && b < services
    ensures var s := After(Initial(services, idleTimeoutMs, threshold, checking), events);
            && |s.pool| == services
            && s.pool[b].failures == TrailingFailures(ResultsOf(s.checker.reports, b))
            && (s.pool[b].healthy <==>
                !LastAllFailed(ResultsOf(s.checker.reports, b), EffectiveThreshold(threshold)))
  {
    var s := Initial(services, idleTimeoutMs, threshold, checking);
    InitiallyValid(services, idleTimeoutMs, threshold, checking);
    RunKeepsValid(s, events);
    ConfigurationIsConstant(s, events);
    assert Reflects(After(s, events).pool[b], ResultsOf(After(s, events).checker.reports, b), threshold);
  }

  lemma {:induction false} ConfigurationIsConstant(s: System, events: seq<LoopEvent>)
    requires IsRun(s, events)
    ensures |After(s, events).pool| == |s.pool| && After(s, events).checker.threshold == s.checker.threshold
    ensures After(s, events).idleTimeoutMs == s.idleTimeoutMs
    decreases |events|
  {
    hide Step;
    if events != [] {
      ConfigurationIsConstant(Next(s, events[0]), events[1..]);
    }
  }

  lemma AnsweredIfHealthy(health: seq<bool>, choice: Result<nat, RoutingError>)
    requires Answers(health, choice)
    ensures choice.Success? <==> exists b | 0 <= b < |health| :: health[b]
    ensures choice.Success? ==> choice.value < |health| && health[choice.value]
  {
    var healthy := HealthyIndices(health);
    if b :| 0 <= b < |health| && health[b] {
      assert b in healthy && healthy != {};
      assert choice.Failure? ==> choice.error == PoolEmpty || choice.error == NoHealthyServices;
    }
  }

  /**
   * A good accept starts one session exactly if some service is healthy, and then on a healthy one,
   * counted there; a failed accept, or one with nobody healthy, starts none.
   */
  lemma NewSessionsGoToHealthy(s: System, i: nat, choice: Result<nat, RoutingError>)
    requires Valid(s) && Enabled(s, HandlesAccept(i, choice))
    ensures var t := Next(s, HandlesAccept(i, choice));
            if s.proxy.accepts[i].ec == Ok && exists b | 0 <= b < |s.pool| :: s.pool[b].healthy then
              && choice.Success? && choice.value < |s.pool| && s.pool[choice.value].healthy
              && t.sessions == s.sessions + [StartedSession(choice.value, s.idleTimeoutMs)]
              && t.pool == s.pool[choice.value := s.pool[choice.value].(active := s.pool[choice.value].active + 1)]
            else t.sessions == s.sessions && t.pool == s.pool
  {
    assert s.sessions + [] == s.sessions;
    AnsweredIfHealthy(HealthOf(s.pool), choice);
    hide Answers, Valid;
    if b :| 0 <= b < |s.pool| && s.pool[b].healthy {
      assert HealthOf(s.pool)[b];
    }
  }
}
