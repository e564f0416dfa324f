/** Configured services (lib/model/ServiceNode.hpp) and their shared runtime state (core/state/). */
module ServicePools {
  import opened FnvHash

  datatype ServiceNode = ServiceNode(name: Bytes, ip: Bytes, port: nat, weight: nat)

  /** What the atomics of one service hold. */
  datatype Service = Service(active: nat, healthy: bool, failures: nat)

  /** `DecrementConnections`: stops at zero. */
  function Decremented(n: nat): nat {
    if n == 0 then 0 else n - 1
  }

  class ServiceState {
    const node: ServiceNode
    var activeConnections: nat
    var healthy: bool
    var consecutiveFailures: nat

    constructor (node: ServiceNode)
      ensures this.node == node && View() == Service(0, true, 0)
    {
      this.node := node;
      activeConnections, healthy, consecutiveFailures := 0, true, 0;
    }

    function View(): Service
      reads this
    {
      Service(activeConnections, healthy, consecutiveFailures)
    }

    method IncrementConnections()
      modifies this
      ensures View() == old(View()).(active := old(activeConnections) + 1)
    {
      activeConnections := activeConnections + 1;
    }

    /** The weak form may fail although the values agree; a failure reloads the current value. */
    method CompareExchangeWeak(expected: nat, desired: nat, spurious: bool) returns (ok: bool, seen: nat)
      modifies this
      ensures ok == (!spurious && old(activeConnections) == expected)
      ensures View() == if ok then old(View()).(active := desired) else old(View())
      ensures seen == if ok then expected else old(activeConnections)
    {
      ok, seen := false, activeConnections;
      if activeConnections == expected && !spurious {
        activeConnections := desired;
        ok := true;
      }
    }

    /** The retry loop, given how many times the exchange fails spuriously. */
    method DecrementConnections(spuriousFailures: nat)
      modifies this
      ensures View() == old(View()).(active := Decremented(old(activeConnections)))
    {
      var current, left := activeConnections, spuriousFailures;
      while current > 0
        invariant current == activeConnections && View() == old(View())
        decreases left
      {
        var ok, seen := CompareExchangeWeak(current, current - 1, left > 0);
        if ok {
          return;
        }
        current, left := seen, left - 1;
      }
    }

    method SetHealthy(value: bool)
      modifies this
      ensures View() == old(View()).(healthy := value)
    {
      healthy := value;
    }

    method IncrementFailures()
      modifies this
      ensures View() == old(View()).(failures := old(consecutiveFailures) + 1)
    {
      consecutiveFailures := consecutiveFailures + 1;
    }

    method ResetFailures()
      modifies this
      ensures View() == old(View()).(failures := 0)
    {
      consecutiveFailures := 0;
    }
  }

  /** The indices of the services that are healthy. */
  function HealthyIndices(health: seq<bool>): set<nat> {
    set i: nat | i < |health| && health[i]
  }

  function HealthOf(views: seq<Service>): (health: seq<bool>)
    ensures |health| == |views|
  {
    seq(|views|, i requires 0 <= i < |views| => views[i].healthy)
  }

  class ServicePool {
    var services: seq<ServiceState>

    /** Every entry is an object of its own. */
    ghost predicate Valid()
      reads this
    {
      forall i, j | 0 <= i < j < |services| :: services[i] != services[j]
    }

    constructor (nodes: seq<ServiceNode>)
      ensures Valid() && fresh(services) && |services| == |nodes|
      ensures forall i | 0 <= i < |nodes| ::
                services[i].node == nodes[i] && services[i].View() == Service(0, true, 0)
    {
      services := [];
      new;
      for i := 0 to |nodes|
        invariant Valid() && |services| == i && fresh(services)
        invariant forall j | 0 <= j < i ::
            services[j].node == nodes[j] && services[j].View() == Service(0, true, 0)
      {
        var service := new ServiceState(nodes[i]);
        services := services + [service];
      }
    }

    function Names(): (names: seq<Bytes>)
      reads this
      ensures |names| == |services|
    {
      seq(|services|, i requires 0 <= i < |services| reads this => services[i].node.name)
    }

    function Views(): (views: seq<Service>)
      reads this, services
      ensures |views| == |services|
    {
      seq(|services|, i requires 0 <= i < |services| reads this, services => services[i].View())
    }

    function Health(): (health: seq<bool>)
      reads this, services
      ensures |health| == |services|
    {
      seq(|services|, i requires 0 <= i < |services| reads this, services => services[i].healthy)
    }

    method GetHealthyCount() returns (count: nat)
      ensures count == |HealthyIndices(Health())|
    {
      count := 0;
      ghost var seen: set<nat> := {};
      for i := 0 to |services|
        invariant seen == set j: nat | j < i && Health()[j]
        invariant count == |seen|
      {
        if services[i].healthy {
          count := count + 1;
          seen := seen + {i};
        }
      }
      assert seen == HealthyIndices(Health());
    }
  }
}
