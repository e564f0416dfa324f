/**
 * The whole engine on its one event-loop thread (core/main.cpp): pool, sessions, acceptor, health
 * checker and signal wait. One event is one completion, or one handler run to its end.
 */
module EventLoop {
  import opened Outcomes
  import opened Sums
  import opened Asio
  import opened ServicePools
  import opened Routing
  import opened Sessions
  import opened HealthChecks
  import opened TcpProxies

  datatype System = System(
    idleTimeoutMs: nat,
    pool: seq<Service>,
    sessions: seq<Session>,
    proxy: Proxy,
    checker: Checker,
    signal: Option<Status>)

  datatype LoopEvent =
    | SignalArrives
    | HandlesSignal
    | AcceptCompletes(i: nat, ok: bool)
    | HandlesAccept(i: nat, choice: Result<nat, RoutingError>)
    | InSession(i: nat, e: Sessions.Event)
    | RoundFires(i: nat)
    | HandlesRound(i: nat)
    | ProbeTimerFires(k: nat)
    | ProbeConnects(k: nat, ok: bool)
    | HandlesProbeTimer(k: nat)
    | HandlesProbeConnect(k: nat)

  /** Everything started; without health checking the checker is as good as stopped. */
  function Initial(services: nat, idleTimeoutMs: nat, threshold: nat, checking: bool): System {
    System(idleTimeoutMs, seq(services, _ => Service(0, true, 0)), [], Proxy(true, [Waiting]),
           Checker(threshold, !checking, if checking then [Waiting] else [], [], []), Some(Waiting))
  }

  /** The proxy just started, and the checker too, if there is one. */
  lemma InitialIsAsStarted(services: nat, idleTimeoutMs: nat, threshold: nat, checking: bool)
    ensures var s := Initial(services, idleTimeoutMs, threshold, checking);
            && s.proxy == AcceptNext(Proxy(true, []))
            && (checking ==> s.checker == ScheduleNextRound(Checker(threshold, false, [], [], [])))
  {
    assert CancelAll([]) == [];
  }

  // ----- steps -----

  /** The signal handler stops the checker, then the proxy. */
  function OnSignal(s: System): System {
    s.(signal := None, checker := HealthChecks.Stop(s.checker), proxy := TcpProxies.Stop(s.proxy))
  }

  function HandleAccept(s: System, i: nat, choice: Result<nat, RoutingError>): System
    requires i < |s.proxy.accepts| && s.proxy.accepts[i].Ready?
    requires choice.Success? ==> choice.value < |s.pool|
  {
    var taken := s.proxy.(accepts := Removed(s.proxy.accepts, i));
    var after := OnAccept(taken, s.pool, s.idleTimeoutMs, s.proxy.accepts[i].ec, choice);
    s.(proxy := after.proxy, pool := after.pool, sessions := s.sessions + after.started)
  }

  /** A session without pending operations is destroyed, which gives its count back. */
  function Released(pool: seq<Service>, b: nat): (r: seq<Service>)
    requires b < |pool|
    ensures |r| == |pool|
  {
    pool[b := pool[b].(active := Decremented(pool[b].active))]
  }

  function SessionBecomes(s: System, i: nat, next: Session): System
    requires i < |s.sessions| && next.backend < |s.pool|
  {
    if next.pending == []
    then s.(sessions := Removed(s.sessions, i), pool := Released(s.pool, next.backend))
    else s.(sessions := s.sessions[i := next])
  }

  function HandleProbeConnect(s: System, k: nat): System
    requires k < |s.checker.probes| && s.checker.probes[k].index < |s.pool|
    requires s.checker.probes[k].connect.Some? && s.checker.probes[k].connect.value.Ready?
  {
    var (checker, pool) := HandleConnect(s.checker, s.pool, k);
    s.(checker := checker, pool := pool)
  }

  predicate WaitsAt(waits: seq<Status>, i: nat) {
    i < |waits| && waits[i].Waiting?
  }

  predicate ReadyAt(waits: seq<Status>, i: nat) {
    i < |waits| && waits[i].Ready?
  }

  function SetProbe(s: System, k: nat, p: Probe): System
    requires k < |s.checker.probes|
  {
    s.(checker := s.checker.(probes := s.checker.probes[k := p]))
  }

  /** Which events may happen. A strategy answers as `Routing.Answers` says. */
  ghost predicate Enabled(s: System, e: LoopEvent) {
    match e
    case SignalArrives => s.signal == Some(Waiting)
    case HandlesSignal => s.signal.Some? && s.signal.value.Ready?
    case AcceptCompletes(i, ok) => WaitsAt(s.proxy.accepts, i)
    case HandlesAccept(i, choice) => ReadyAt(s.proxy.accepts, i) && Answers(HealthOf(s.pool), choice)
    case InSession(i, e) => i < |s.sessions| && s.sessions[i].backend < |s.pool| && Step(s.sessions[i], e).Some?
                            && Step(s.sessions[i], e).value.backend < |s.pool|
    case RoundFires(i) => WaitsAt(s.checker.rounds, i)
    case HandlesRound(i) => ReadyAt(s.checker.rounds, i)
    case ProbeTimerFires(k) => k < |s.checker.probes| && s.checker.probes[k].timer == Some(Waiting)
    case ProbeConnects(k, ok) => k < |s.checker.probes| && s.checker.probes[k].connect == Some(Waiting)
    case HandlesProbeTimer(k) =>
      k < |s.checker.probes| && s.checker.probes[k].timer.Some? && s.checker.probes[k].timer.value.Ready?
    case HandlesProbeConnect(k) =>
      k < |s.checker.probes| && s.checker.probes[k].connect.Some? && s.checker.probes[k].connect.value.Ready?
      && s.checker.probes[k].index < |s.pool|
  }

  ghost function Next(s: System, e: LoopEvent): System
    requires Enabled(s, e)
  {
    match e
    case SignalArrives => s.(signal := Some(Ready(Ok)))
    case HandlesSignal => OnSignal(s)
    case AcceptCompletes(i, ok) =>
      s.(proxy := s.proxy.(accepts := s.proxy.accepts[i := Ready(if ok then Ok else OtherError)]))
    case HandlesAccept(i, choice) => HandleAccept(s, i, choice)
    case InSession(i, e) => SessionBecomes(s, i, Step(s.sessions[i], e).value)
    case RoundFires(i) => s.(checker := s.checker.(rounds := s.checker.rounds[i := Ready(Ok)]))
    case HandlesRound(i) =>
      var taken := s.checker.(rounds := Removed(s.checker.rounds, i));
      s.(checker := OnRound(taken, |s.pool|, s.checker.rounds[i].ec))
    case ProbeTimerFires(k) => SetProbe(s, k, s.checker.probes[k].(timer := Some(Ready(Ok))))
    case ProbeConnects(k, ok) =>
      SetProbe(s, k, s.checker.probes[k].(connect := Some(Ready(if ok then Ok else OtherError))))
    case HandlesProbeTimer(k) =>
      SetProbe(s, k, OnProbeTimer(s.checker.probes[k], s.checker.probes[k].timer.value.ec))
    case HandlesProbeConnect(k) => HandleProbeConnect(s, k)
  }

  ghost predicate IsRun(s: System, events: seq<LoopEvent>)
    decreases |events|
  {
    events == [] || (Enabled(s, events[0]) && IsRun(Next(s, events[0]), events[1..]))
  }

  ghost function After(s: System, events: seq<LoopEvent>): System
    requires IsRun(s, events)
    decreases |events|
  {
    if events == [] then s else After(Next(s, events[0]), events[1..])
  }
}
