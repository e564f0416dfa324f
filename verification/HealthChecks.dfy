/** Active health checking (core/health/HealthChecker.cpp): rounds of probes, and what their results mean. */
module HealthChecks {
  import opened Outcomes
  import opened Asio
  import opened ServicePools

  /** The two operations of a probe, None once the handler has run, and whether its socket is open. */
  datatype Probe = Probe(index: nat, timer: Option<Status>, connect: Option<Status>, open: bool)

  function NewProbe(index: nat): Probe {
    Probe(index, Some(Waiting), Some(Waiting), true)
  }

  datatype Report = Report(index: nat, ok: bool)

  /** `rounds` are the waits on the round timer; `reports` lists every result so far, in order. */
  datatype Checker = Checker(
    threshold: nat, stopped: bool, rounds: seq<Status>, probes: seq<Probe>, reports: seq<Report>)

  // ----- what one result does -----

  function Reported(service: Service, ok: bool, threshold: nat): Service {
    if ok then service.(failures := 0, healthy := true)
    else
      var failures := service.failures + 1;
      service.(failures := failures, healthy := service.healthy && failures < threshold)
  }

  // ----- the handlers -----

  function ScheduleNextRound(c: Checker): Checker {
    if c.stopped then c else c.(rounds := CancelAll(c.rounds) + [Waiting])
  }

  function Stop(c: Checker): Checker {
    c.(stopped := true, rounds := CancelAll(c.rounds))
  }

  function NewProbes(from: nat, upto: nat): (probes: seq<Probe>)
    requires from <= upto
    decreases upto - from
    ensures |probes| == upto - from
  {
    if from == upto then [] else [NewProbe(from)] + NewProbes(from + 1, upto)
  }

  function OnRound(c: Checker, services: nat, ec: Ec): Checker {
    if ec != Ok || c.stopped then c
    else ScheduleNextRound(c.(probes := c.probes + NewProbes(0, services)))
  }

  /** The probe's timeout closes its socket, aborting the connect if it still waits. */
  function OnProbeTimer(p: Probe, ec: Ec): Probe {
    if ec != Ok then p.(timer := None)
    else p.(timer := None, open := false,
            connect := if p.connect.Some? then Some(Cancel(p.connect.value)) else None)
  }

  /** The connect has finished: the timer is cancelled, the result counts, and a success closes the socket. */
  function OnProbeConnected(p: Probe, ec: Ec): Probe {
    Probe(p.index, if p.timer.Some? then Some(Cancel(p.timer.value)) else None, None, p.open && ec != Ok)
  }

  /** Running the handler of a probe's connect: the result goes to the service probed. */
  function HandleConnect(c: Checker, pool: seq<Service>, k: nat): (r: (Checker, seq<Service>))
    requires k < |c.probes| && c.probes[k].index < |pool|
    requires c.probes[k].connect.Some? && c.probes[k].connect.value.Ready?
  {
    var p := c.probes[k];
    var ec := p.connect.value.ec;
    (c.(probes := c.probes[k := OnProbeConnected(p, ec)], reports := c.reports + [Report(p.index, ec == Ok)]),
     pool[p.index := Reported(pool[p.index], ec == Ok, c.threshold)])
  }

  /**
   * A probe ends: its timeout ends a connect that still waits, and its result ends the timeout. A
   * connect waits on an open socket, and no probe aborts its own connect but by its timeout.
   */
  ghost predicate ProbeValid(p: Probe) {
    && (p.connect.None? ==> p.timer != Some(Waiting))
    && (p.timer.None? ==> p.connect != Some(Waiting))
    && (p.timer == Some(Ready(Aborted)) ==> p.connect.None?)
    && p.timer != Some(Ready(OtherError))
    && (p.connect == Some(Waiting) ==> p.open)
    && (p.connect == Some(Ready(Aborted)) ==> !p.open)
  }

  /** A round probes every service once, in order. */
  lemma {:induction false} RoundProbesEveryService(from: nat, upto: nat)
    requires from <= upto
    ensures forall k | 0 <= k < upto - from ::
              NewProbes(from, upto)[k] == NewProbe(from + k)
    decreases upto - from
  {
    if from < upto {
      RoundProbesEveryService(from + 1, upto);
    }
  }

  // ----- what the counters mean -----

  /** The results a service has had, in the order in which they came in. */
  function ResultsOf(reports: seq<Report>, index: nat): seq<bool> {
    if reports == [] then []
    else
      var last := reports[|reports| - 1];
      ResultsOf(reports[..|reports| - 1], index) + if last.index == index then [last.ok] else []
  }

  function TrailingFailures(results: seq<bool>): nat {
    if results == [] || results[|results| - 1] then 0
    else 1 + TrailingFailures(results[..|results| - 1])
  }

  /** The last `n` results exist and are all failures. */
  ghost predicate LastAllFailed(results: seq<bool>, n: nat) {
    n <= |results| && forall i | |results| - n <= i < |results| :: !results[i]
  }

  lemma {:induction false} TrailingMeansLastAllFailed(results: seq<bool>, n: nat)
    ensures n <= TrailingFailures(results) <==> LastAllFailed(results, n)
  {
    if n > 0 && results != [] && !results[|results| - 1] {
      TrailingMeansLastAllFailed(results[..|results| - 1], n - 1);
      if LastAllFailed(results[..|results| - 1], n - 1) {
        assert LastAllFailed(results, n);
      }
      if LastAllFailed(results, n) {
        assert LastAllFailed(results[..|results| - 1], n - 1);
      }
    }
  }

  /** How many failures in a row take a service down: even a threshold of 0 needs one. */
  function EffectiveThreshold(threshold: nat): nat {
    if threshold == 0 then 1 else threshold
  }

  /** A service's counter and flag say exactly what its results so far imply. */
  ghost predicate Reflects(service: Service, results: seq<bool>, threshold: nat) {
    && service.failures == TrailingFailures(results)
    && (service.healthy <==> !LastAllFailed(results, EffectiveThreshold(threshold)))
  }

  lemma NewServiceReflects(threshold: nat)
    ensures Reflects(Service(0, true, 0), [], threshold)
  {}

  lemma ResultKeepsReflecting(service: Service, results: seq<bool>, ok: bool, threshold: nat)
    requires Reflects(service, results, threshold)
    ensures Reflects(Reported(service, ok, threshold), results + [ok], threshold)
  {
    var n := EffectiveThreshold(threshold);
    assert (results + [ok])[..|results|] == results;
    TrailingMeansLastAllFailed(results, n);
    TrailingMeansLastAllFailed(results + [ok], n);
  }
}
