/**
 * What a run of the engine amounts to, told by its events alone: which sessions were started,
 * which results each service had, and what its health must be.
 */
module EventLoopTrace {
  import opened Outcomes
  import opened Words
  import opened Sums
  import opened Asio
  import opened ServicePools
  import opened Routing
  import opened Sessions
  import SessionDeadlines
  import opened HealthChecks
  import opened TcpProxies
  import opened EventLoop
  import opened EventLoopSafety

  // ----- the reading of a run -----

  /** How the accept not yet handled has completed, if it has. */
  function LastAccept(past: seq<LoopEvent>): Option<bool> {
    if past == [] then None
    else
      match past[|past| - 1]
      case AcceptCompletes(_, ok) => Some(ok)
      case HandlesAccept(_, _) => None
      case _ => LastAccept(past[..|past| - 1])
  }

  /** The event starts a session: it handles an accept that completed well, and a service was chosen. */
  predicate StartsSession(past: seq<LoopEvent>, e: LoopEvent) {
    e.HandlesAccept? && LastAccept(past) == Some(true) && e.choice.Success?
  }

  function SessionsStarted(past: seq<LoopEvent>): nat {
    if past == [] then 0
    else
      var front := past[..|past| - 1];
      SessionsStarted(front) + if StartsSession(front, past[|past| - 1]) then 1 else 0
  }

  /**
   * The results of service b in a pool of n: one for each connect handled of a probe of it (the
   * k-th probe is of service k modulo n), good exactly if that connect completed well.
   */
  function ProbeResults(past: seq<LoopEvent>, n: nat, b: nat): seq<bool>
    requires b < n
  {
    if past == [] then []
    else
      var front, e := past[..|past| - 1], past[|past| - 1];
      ProbeResults(front, n, b)
      + if e.HandlesProbeConnect? && e.k % n == b then [ProbeConnects(e.k, true) in front] else []
  }

  /** How many sessions were destroyed. */
  ghost function SessionsEnded(s: System, events: seq<LoopEvent>): nat
    requires IsRun(s, events)
    decreases |events|
  {
    if events == [] then 0
    else
      var e := events[0];
      (if e.InSession? && Step(s.sessions[e.i], e.e).value.pending == [] then 1 else 0)
      + SessionsEnded(Next(s, e), events[1..])
  }

  // ----- what the state remembers of it -----

  ghost predicate AcceptsTraced(s: System, past: seq<LoopEvent>) {
    && |s.proxy.accepts| <= 1
    && (s.proxy.accepts == [Ready(Ok)] <==> LastAccept(past) == Some(true))
  }

  ghost predicate ConnectTraced(connect: Option<Status>, past: seq<LoopEvent>, k: nat) {
    match connect
    case None => true
    case Some(Waiting) => ProbeConnects(k, true) !in past && ProbeConnects(k, false) !in past
    case Some(Ready(ec)) =>
      (ec == Ok <==> ProbeConnects(k, true) in past) && (ec == OtherError <==> ProbeConnects(k, false) in past)
  }

  /** Probes are made in whole rounds, service by service, and their connects are as the events say. */
  ghost predicate ProbesTraced(s: System, past: seq<LoopEvent>) {
    && (s.pool == [] ==> s.checker.probes == [])
    && (s.pool != [] ==> |s.checker.probes| % |s.pool| == 0)
    && (forall k | 0 <= k < |s.checker.probes| ::
          s.pool != [] && s.checker.probes[k].index == k % |s.pool|
          && ConnectTraced(s.checker.probes[k].connect, past, k))
    && (forall e | e in past && e.ProbeConnects? :: e.k < |s.checker.probes|)
  }

  ghost predicate ResultsTraced(s: System, past: seq<LoopEvent>) {
    forall b | 0 <= b < |s.pool| :: ResultsOf(s.checker.reports, b) == ProbeResults(past, |s.pool|, b)
  }

  /** Checks go on exactly from the start, if they are enabled, to the signal. */
  ghost predicate CheckingTraced(s: System, checking: bool) {
    s.checker.stopped <==> !checking || s.signal.None?
  }

  ghost predicate Traced(s: System, past: seq<LoopEvent>, checking: bool) {
    AcceptsTraced(s, past) && ProbesTraced(s, past) && ResultsTraced(s, past) && CheckingTraced(s, checking)
  }

  // ----- every event keeps it -----

  lemma EventIsLast(past: seq<LoopEvent>, e: LoopEvent)
    ensures (past + [e])[..|past + [e]| - 1] == past && (past + [e])[|past + [e]| - 1] == e
  {}

  lemma EventKeepsAcceptsTraced(s: System, past: seq<LoopEvent>, e: LoopEvent)
    requires AcceptsTraced(s, past) && Enabled(s, e)
    ensures AcceptsTraced(Next(s, e), past + [e])
  {
    hide Step, Answers;
    EventIsLast(past, e);
  }

  lemma EventKeepsCheckingTraced(s: System, e: LoopEvent, checking: bool)
    requires CheckingTraced(s, checking) && Enabled(s, e)
    ensures CheckingTraced(Next(s, e), checking)
  {
    hide Step, Answers;
  }

  lemma RoundKeepsProbesTraced(s: System, past: seq<LoopEvent>, i: nat)
    requires EventLoopSafety.Valid(s) && ProbesTraced(s, past) && Enabled(s, HandlesRound(i))
    ensures ProbesTraced(Next(s, HandlesRound(i)), past + [HandlesRound(i)])
  {
    var e, t := HandlesRound(i), Next(s, HandlesRound(i));
    hide SessionsValid, HealthExact;
    RoundProbesEveryService(0, |s.pool|);
    var before, n := |s.checker.probes|, |s.pool|;
    assert forall f | f in past + [e] && f.ProbeConnects? :: f in past;
    forall k | 0 <= k < |t.checker.probes|
      ensures t.pool != [] && t.checker.probes[k].index == k % n
      ensures ConnectTraced(t.checker.probes[k].connect, past + [e], k)
    {
      if k < before {
        assert t.checker.probes[k] == s.checker.probes[k];
      } else {
        assert t.checker.probes[k] == NewProbe(k - before);
        OneRoundOn(before, n, k);
      }
    }
    if n > 0 && t.checker.probes != s.checker.probes {
      NextRound(before, n);
    }
  }

  lemma OneRoundOn(before: nat, n: nat, k: nat)
    requires 0 < n && before % n == 0 && before <= k < before + n
    ensures k % n == k - before
  {
    var q := before / n;
    assert before == n * q + before % n;
    Quotient(k, n, k - before, q);
    assert k == n * (k / n) + k % n;
  }

  lemma NextRound(before: nat, n: nat)
    requires 0 < n && before % n == 0
    ensures (before + n) % n == 0
  {
    var q := before / n;
    assert before == n * q + before % n;
    OneMore(n, q);
    Quotient(before + n, n, 0, q + 1);
    assert before + n == n * ((before + n) / n) + (before + n) % n;
  }

  lemma OneMore(n: nat, q: nat)
    ensures n * (q + 1) == n * q + n
  {
  }

  /** Completing a connect is what the trace says of it, and of no other. */
  lemma ConnectsKeepsProbesTraced(s: System, past: seq<LoopEvent>, k: nat, ok: bool)
    requires ProbesTraced(s, past) && Enabled(s, ProbeConnects(k, ok))
    ensures ProbesTraced(Next(s, ProbeConnects(k, ok)), past + [ProbeConnects(k, ok)])
  {
    var e := ProbeConnects(k, ok);
    assert forall f :: f in past + [e] <==> f in past || f == e;
  }

  /** Whatever else happens to a probe leaves alone how its connect completed. */
  lemma ProbeKeepsProbesTraced(s: System, past: seq<LoopEvent>, e: LoopEvent, t: System, k: nat, p: Probe)
    requires ProbesTraced(s, past) && !e.ProbeConnects? && k < |s.checker.probes|
    requires |t.pool| == |s.pool| && t.checker.probes == s.checker.probes[k := p]
    requires p.index == s.checker.probes[k].index
    requires p.connect.None? || p.connect == s.checker.probes[k].connect
             || (s.checker.probes[k].connect == Some(Waiting) && p.connect == Some(Ready(Aborted)))
    ensures ProbesTraced(t, past + [e])
  {
    assert forall f: LoopEvent | f.ProbeConnects? :: f in past + [e] <==> f in past;
  }

  lemma OtherKeepsProbesTraced(s: System, past: seq<LoopEvent>, e: LoopEvent, t: System)
    requires ProbesTraced(s, past) && !e.ProbeConnects?
    requires |t.pool| == |s.pool| && t.checker.probes == s.checker.probes
    ensures ProbesTraced(t, past + [e])
  {
    assert forall f: LoopEvent | f.ProbeConnects? :: f in past + [e] <==> f in past;
  }

  lemma EventKeepsProbesTraced(s: System, past: seq<LoopEvent>, e: LoopEvent)
    requires EventLoopSafety.Valid(s) && ProbesTraced(s, past) && Enabled(s, e)
    ensures ProbesTraced(Next(s, e), past + [e])
  {
    hide Step, Answers, SessionsValid, HealthExact, ProbesTraced, CountsExact;
    var t := Next(s, e);
    match e
    case HandlesRound(i) => RoundKeepsProbesTraced(s, past, i);
    case ProbeConnects(k, ok) => ConnectsKeepsProbesTraced(s, past, k, ok);
    case ProbeTimerFires(k) => ProbeKeepsProbesTraced(s, past, e, t, k, t.checker.probes[k]);
    case HandlesProbeTimer(k) => ProbeKeepsProbesTraced(s, past, e, t, k, t.checker.probes[k]);
    case HandlesProbeConnect(k) => ProbeKeepsProbesTraced(s, past, e, t, k, t.checker.probes[k]);
    case _ => OtherKeepsProbesTraced(s, past, e, t);
  }

  lemma EventKeepsResultsTraced(s: System, past: seq<LoopEvent>, e: LoopEvent)
    requires ProbesTraced(s, past) && ResultsTraced(s, past) && Enabled(s, e)
    ensures ResultsTraced(Next(s, e), past + [e])
  {
    hide Step, Answers;
    EventIsLast(past, e);
    var t := Next(s, e);
    if e.HandlesProbeConnect? {
      var p := s.checker.probes[e.k];
      assert ConnectTraced(p.connect, past, e.k);
      var report := Report(p.index, ProbeConnects(e.k, true) in past);
      assert t.checker.reports == s.checker.reports + [report];
      forall b | 0 <= b < |t.pool|
        ensures ResultsOf(t.checker.reports, b) == ProbeResults(past + [e], |t.pool|, b)
      {
        ResultsAfterReport(s.checker.reports, report, b);
      }
    } else {
      assert |t.pool| == |s.pool| && t.checker.reports == s.checker.reports;
      forall b | 0 <= b < |t.pool|
        ensures ProbeResults(past + [e], |t.pool|, b) == ProbeResults(past, |t.pool|, b)
      {
        assert ProbeResults(past, |t.pool|, b) + [] == ProbeResults(past, |t.pool|, b);
      }
    }
  }

  lemma EventKeepsTraced(s: System, past: seq<LoopEvent>, e: LoopEvent, checking: bool)
    requires EventLoopSafety.Valid(s) && Traced(s, past, checking) && Enabled(s, e)
    ensures Traced(Next(s, e), past + [e], checking)
  {
    hide EventLoopSafety.Valid, AcceptsTraced, ProbesTraced, ResultsTraced, CheckingTraced, Enabled, Next;
    EventKeepsAcceptsTraced(s, past, e);
    EventKeepsProbesTraced(s, past, e);
    EventKeepsResultsTraced(s, past, e);
    EventKeepsCheckingTraced(s, e, checking);
  }

  lemma {:induction false} RunKeepsTraced(s: System, past: seq<LoopEvent>, events: seq<LoopEvent>, checking: bool)
    requires EventLoopSafety.Valid(s) && Traced(s, past, checking) && IsRun(s, events)
    ensures Traced(After(s, events), past + events, checking)
    decreases |events|
  {
    hide EventLoopSafety.Valid, Traced, Enabled, Next;
    if events == [] {
      assert past + [] == past;
    } else {
      EventKeepsValid(s, events[0]);
      EventKeepsTraced(s, past, events[0], checking);
      RunKeepsTraced(Next(s, events[0]), past + [events[0]], events[1..], checking);
      assert past + [events[0]] + events[1..] == past + events;
    }
  }

  lemma InitiallyTraced(services: nat, idleTimeoutMs: nat, threshold: nat, checking: bool)
    ensures Traced(Initial(services, idleTimeoutMs, threshold, checking), [], checking)
  {}

  lemma ReachableIsTraced(services: nat, idleTimeoutMs: nat, threshold: nat, checking: bool, events: seq<LoopEvent>)
    requires IsRun(Initial(services, idleTimeoutMs, threshold, checking), events)
    ensures Traced(After(Initial(services, idleTimeoutMs, threshold, checking), events), events, checking)
  {
    InitiallyValid(services, idleTimeoutMs, threshold, checking);
    InitiallyTraced(services, idleTimeoutMs, threshold, checking);
    RunKeepsTraced(Initial(services, idleTimeoutMs, threshold, checking), [], events, checking);
    assert [] + events == events;
  }

  // ----- what follows -----

  /**
   * In every reachable state, told by the events alone: a service's failure count is the trailing
   * run of failures among its probes' outcomes, in the order in which they were handled, and it is
   * healthy unless the latest of them, enough of them, all failed.
   */
  lemma HealthFollowsOutcomes(
    services: nat, idleTimeoutMs: nat, threshold: nat, checking: bool, events: seq<LoopEvent>, b: nat)
    requires IsRun(Initial(services, idleTimeoutMs, threshold, checking), events) && b < services
    ensures var s := After(Initial(services, idleTimeoutMs, threshold, checking), events);
            var results := ProbeResults(events, services, b);
            && |s.pool| == services
            && s.pool[b].failures == TrailingFailures(results)
            && (s.pool[b].healthy <==>
                !(EffectiveThreshold(threshold) <= |results|
                  && forall i | |results| - EffectiveThreshold(threshold) <= i < |results| :: !results[i]))
  {
    HealthFollowsResults(services, idleTimeoutMs, threshold, checking, events, b);
    ReachableIsTraced(services, idleTimeoutMs, threshold, checking, events);
    hide IsRun, After;
    assert ResultsTraced(After(Initial(services, idleTimeoutMs, threshold, checking), events), events);
  }

  /** While checks are enabled and no signal has been handled, the next round is on its way. */
  lemma CheckingGoesOn(
    services: nat, idleTimeoutMs: nat, threshold: nat, checking: bool, events: seq<LoopEvent>)
    requires IsRun(Initial(services, idleTimeoutMs, threshold, checking), events)
    ensures var s := After(Initial(services, idleTimeoutMs, threshold, checking), events);
            if checking && s.signal.Some? then s.checker.rounds == [Waiting] || s.checker.rounds == [Ready(Ok)]
            else s.checker.stopped
  {
    InitiallyValid(services, idleTimeoutMs, threshold, checking);
    RunKeepsValid(Initial(services, idleTimeoutMs, threshold, checking), events);
    ReachableIsTraced(services, idleTimeoutMs, threshold, checking, events);
  }

  lemma EventStartsOrEnds(s: System, past: seq<LoopEvent>, e: LoopEvent)
    requires AcceptsTraced(s, past) && Enabled(s, e)
    ensures |Next(s, e).sessions| + (if e.InSession? && Step(s.sessions[e.i], e.e).value.pending == [] then 1 else 0)
         == |s.sessions| + if StartsSession(past, e) then 1 else 0
  {
    hide Step, Answers;
  }

  lemma {:induction false} SessionsOverRun(s: System, past: seq<LoopEvent>, events: seq<LoopEvent>, checking: bool)
    requires EventLoopSafety.Valid(s) && Traced(s, past, checking) && IsRun(s, events)
    ensures |After(s, events).sessions| + SessionsEnded(s, events) + SessionsStarted(past)
         == |s.sessions| + SessionsStarted(past + events)
    decreases |events|
  {
    hide EventLoopSafety.Valid, Enabled, Next, Step, ProbesTraced, ResultsTraced, AcceptsTraced;
    if events == [] {
      assert past + [] == past;
    } else {
      var e := events[0];
      EventKeepsValid(s, e);
      EventKeepsTraced(s, past, e, checking);
      EventStartsOrEnds(s, past, e);
      EventIsLast(past, e);
      SessionsOverRun(Next(s, e), past + [e], events[1..], checking);
      assert past + [e] + events[1..] == past + events;
    }
  }

  /**
   * Over every run: the sessions up and the sessions ended are those that the events started, one for
   * each accept that completed well and was then routed to a service.
   */
  lemma SessionsAreAccountedFor(
    services: nat, idleTimeoutMs: nat, threshold: nat, checking: bool, events: seq<LoopEvent>)
    requires IsRun(Initial(services, idleTimeoutMs, threshold, checking), events)
    ensures var s := Initial(services, idleTimeoutMs, threshold, checking);
            |After(s, events).sessions| + SessionsEnded(s, events) == SessionsStarted(events)
  {
    InitiallyValid(services, idleTimeoutMs, threshold, checking);
    InitiallyTraced(services, idleTimeoutMs, threshold, checking);
    SessionsOverRun(Initial(services, idleTimeoutMs, threshold, checking), [], events, checking);
    assert [] + events == events;
  }

  /** Nothing is ruled out: what waits may complete, well or badly, and what is ready may be handled. */
  lemma EveryOutcomeIsPossible(s: System, i: nat, ok: bool, e: Sessions.Event, choice: Result<nat, RoutingError>)
    requires EventLoopSafety.Valid(s)
    ensures s.signal == Some(Waiting) ==> Enabled(s, SignalArrives)
    ensures i < |s.proxy.accepts| ==>
              if s.proxy.accepts[i].Waiting? then Enabled(s, AcceptCompletes(i, ok))
              else Answers(HealthOf(s.pool), choice) ==> Enabled(s, HandlesAccept(i, choice))
    ensures i < |s.sessions| && Step(s.sessions[i], e).Some? ==> Enabled(s, InSession(i, e))
    ensures i < |s.checker.rounds| ==>
              if s.checker.rounds[i].Waiting? then Enabled(s, RoundFires(i)) else Enabled(s, HandlesRound(i))
    ensures i < |s.checker.probes| && s.checker.probes[i].connect.Some? ==>
              if s.checker.probes[i].connect.value.Waiting? then Enabled(s, ProbeConnects(i, ok))
              else Enabled(s, HandlesProbeConnect(i))
    ensures i < |s.checker.probes| && s.checker.probes[i].timer.Some? ==>
              if s.checker.probes[i].timer.value.Waiting? then Enabled(s, ProbeTimerFires(i))
              else Enabled(s, HandlesProbeTimer(i))
  {
    hide Step, Sessions.Valid, Reflects, ResultsOf, Answers;
    if i < |s.sessions| && Step(s.sessions[i], e).Some? {
      assert SessionValid(s.sessions[i], |s.pool|, s.idleTimeoutMs);
      SessionDeadlines.StepKeepsConfiguration(s.sessions[i], e);
    }
  }
}
