/** The health checker as an object, proved to act as the functions of `HealthChecks`. */
module HealthCheckerObjects {
  import opened Asio
  import opened Outcomes
  import opened ServicePools
  import opened HealthChecks

  class HealthChecker {
    const pool: ServicePool
    const threshold: nat
    var stopped: bool
    var rounds: seq<Status>
    var probes: seq<Probe>
    ghost var reports: seq<Report>

    ghost function View(): Checker
      reads this
    {
      Checker(threshold, stopped, rounds, probes, reports)
    }

    constructor (pool: ServicePool, threshold: nat)
      ensures this.pool == pool && View() == Checker(threshold, false, [], [], [])
    {
      this.pool, this.threshold := pool, threshold;
      stopped, rounds, probes, reports := false, [], [], [];
    }

    method Start()
      modifies this`rounds
      ensures View() == HealthChecks.ScheduleNextRound(old(View()))
    {
      ScheduleNextRound();
    }

    method Stop()
      modifies this`stopped, this`rounds
      ensures View() == HealthChecks.Stop(old(View()))
    {
      stopped := true;
      rounds := CancelAll(rounds);
    }

    method ScheduleNextRound()
      modifies this`rounds
      ensures View() == HealthChecks.ScheduleNextRound(old(View()))
    {
      if stopped {
        return;
      }
      rounds := CancelAll(rounds);
      rounds := rounds + [Waiting];
    }

    method OnRound(ec: Ec)
      modifies this`rounds, this`probes
      ensures View() == HealthChecks.OnRound(old(View()), |pool.services|, ec)
    {
      if ec != Ok || stopped {
        return;
      }
      ProbeAll();
      ScheduleNextRound();
    }

    method ProbeAll()
      modifies this`probes
      ensures probes == old(probes) + NewProbes(0, |pool.services|)
    {
      ghost var before := probes;
      for i := 0 to |pool.services|
        invariant before + NewProbes(0, |pool.services|) == probes + NewProbes(i, |pool.services|)
      {
        ProbeOne(i);
      }
    }

    method ProbeOne(index: nat)
      modifies this`probes
      ensures probes == old(probes) + [NewProbe(index)]
    {
      probes := probes + [Probe(index, Some(Waiting), Some(Waiting), true)];
    }

    method RunProbeTimer(k: nat)
      requires k < |probes| && probes[k].timer.Some? && probes[k].timer.value.Ready?
      modifies this`probes
      ensures probes == old(probes)[k := OnProbeTimer(old(probes)[k], old(probes)[k].timer.value.ec)]
    {
      var probe := probes[k];
      var ec := probe.timer.value.ec;
      probe := probe.(timer := None);
      if ec == Ok {
        probe := probe.(open := false);
        if probe.connect.Some? {
          probe := probe.(connect := Some(Cancel(probe.connect.value)));
        }
      }
      probes := probes[k := probe];
    }

    method RunProbeConnect(k: nat)
      requires pool.Valid()
      requires k < |probes| && probes[k].connect.Some? && probes[k].connect.value.Ready?
      requires probes[k].index < |pool.services|
      modifies this`probes, this`reports, pool.services[probes[k].index]
      ensures (View(), pool.Views()) == HandleConnect(old(View()), old(pool.Views()), k)
    {
      ghost var checker, services := View(), pool.Views();
      var probe := probes[k];
      if probe.timer.Some? {
        probe := probe.(timer := Some(Cancel(probe.timer.value)));
      }
      probes := probes[k := probe.(connect := None)];
      OnProbeResult(probe.index, k, probe.connect.value.ec);
      assert pool.Views() == services[probe.index := pool.services[probe.index].View()];
      reports := reports + [Report(probe.index, probe.connect.value.ec == Ok)];
      assert probes == checker.probes[k := OnProbeConnected(checker.probes[k], probe.connect.value.ec)];
      assert pool.Views() == HandleConnect(checker, services, k).1;
      assert View() == HandleConnect(checker, services, k).0;
    }

    /** The result of the probe at `k`, whose socket is closed after a success. */
    method OnProbeResult(index: nat, k: nat, ec: Ec)
      requires pool.Valid() && index < |pool.services| && k < |probes|
      modifies this`probes, pool.services[index]
      ensures probes == old(probes)[k := old(probes)[k].(open := old(probes)[k].open && ec != Ok)]
      ensures pool.services[index].View() == Reported(old(pool.services[index].View()), ec == Ok, threshold)
    {
      var svc := pool.services[index];
      if ec != Ok {
        svc.IncrementFailures();
        var thresholdReached := svc.consecutiveFailures >= threshold;
        if thresholdReached && svc.healthy {
          svc.SetHealthy(false);
        }
        return;
      }
      svc.ResetFailures();
      svc.SetHealthy(true);
      probes := probes[k := probes[k].(open := false)];
    }
  }
}
