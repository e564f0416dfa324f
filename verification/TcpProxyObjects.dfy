/** The proxy as an object, proved to act as the functions of `TcpProxies`. */
module TcpProxyObjects {
  import opened Outcomes
  import opened Asio
  import opened FnvHash
  import opened ServicePools
  import opened Routing
  import opened ConsistentHash
  import opened PowerOfTwoChoices
  import opened SessionObjects
  import Sessions
  import opened TcpProxies

  /** The routing strategy the proxy was given. */
  datatype Strategy = ByRing(ring: ConsistentHashStrategy) | ByChoice(p2c: P2CStrategy)

  class TcpProxy {
    const pool: ServicePool
    const strategy: Strategy
    const idleTimeoutMs: nat
    var acceptorOpen: bool
    var accepts: seq<Status>

    ghost function View(): Proxy
      reads this
    {
      Proxy(acceptorOpen, accepts)
    }

    constructor (pool: ServicePool, strategy: Strategy, idleTimeoutMs: nat)
      ensures this.pool == pool && this.strategy == strategy && this.idleTimeoutMs == idleTimeoutMs
      ensures View() == Proxy(true, [])
    {
      this.pool, this.strategy, this.idleTimeoutMs := pool, strategy, idleTimeoutMs;
      acceptorOpen, accepts := true, [];
    }

    method Start()
      modifies this`accepts
      ensures View() == TcpProxies.AcceptNext(old(View()))
    {
      AcceptNext();
    }

    method Stop()
      modifies this
      ensures View() == TcpProxies.Stop(old(View()))
    {
      acceptorOpen := false;
      accepts := CancelAll(accepts);
    }

    method AcceptNext()
      modifies this`accepts
      ensures View() == TcpProxies.AcceptNext(old(View()))
    {
      accepts := accepts + [Started(acceptorOpen)];
    }

    /** The ring was built from this pool; the draws still to come end the redraw loop at `j`. */
    ghost predicate CanRoute(j: nat)
      reads pool, pool.services, if strategy.ByChoice? then {strategy.p2c} else {}
    {
      match strategy
      case ByRing(ring) => IsRingOf(ring.ring, pool.Names())
      case ByChoice(p2c) =>
        var n := |HealthyIndices(pool.Health())|;
        n >= 2 ==> EndsAt(p2c.draws, n, j)
    }

    /** `SelectService` of the strategy, whichever it is. */
    method Route(routingKey: Bytes, ghost j: nat) returns (choice: Result<nat, RoutingError>)
      requires CanRoute(j)
      modifies if strategy.ByChoice? then {strategy.p2c} else {}
      ensures Answers(old(pool.Health()), choice)
      ensures strategy.ByRing? ==>
                && IsRingOf(strategy.ring.ring, old(pool.Names()))
                && (|old(pool.Health())| > 0 ==> OwnersWithin(strategy.ring.ring, |old(pool.Health())|))
                && Selects(strategy.ring.ring, old(pool.Health()), HashOf(routingKey), choice)
      ensures strategy.ByChoice? ==>
                var several := |HealthyIndices(old(pool.Health()))| >= 2;
                && (several ==> PicksLighter(old(pool.Views()), old(strategy.p2c.draws), j, choice)
                                && j < |old(strategy.p2c.draws)|)
                && strategy.p2c.draws == if several then old(strategy.p2c.draws)[j + 1..] else old(strategy.p2c.draws)
    {
      match strategy
      case ByRing(ring) =>
        RingContents(ring.ring, pool.Names());
        choice := ring.SelectService(pool, routingKey);
        LookupAnswers(ring.ring, pool.Names(), pool.Health(), HashOf(routingKey), choice);
      case ByChoice(p2c) =>
        choice := p2c.SelectService(pool, j);
    }

    /** Counts a new session on the service chosen, and starts it. */
    method StartSession(backendIdx: nat) returns (session: Session)
      requires pool.Valid() && backendIdx < |pool.services|
      modifies pool.services
      ensures fresh(session) && session.backend == pool.services[backendIdx]
      ensures session.View() == Sessions.StartedSession(backendIdx, idleTimeoutMs)
      ensures pool.Views() == Count(old(pool.Views()), backendIdx)
    {
      var backend := pool.services[backendIdx];
      session := new Session(backend, backendIdx, idleTimeoutMs);
      ghost var before := pool.Views();
      backend.IncrementConnections();
      assert pool.Views() == Count(before, backendIdx);
      session.Start();
    }

    /** `choice` is what the strategy answered, if it was asked. */
    method OnAccept(ec: Ec, routingKey: Bytes, ghost j: nat)
      returns (session: Option<Session>, choice: Result<nat, RoutingError>)
      requires pool.Valid() && CanRoute(j)
      modifies this`accepts, pool.services, if strategy.ByChoice? then {strategy.p2c} else {}
      ensures ec == Ok ==> Answers(old(pool.Health()), choice)
      ensures ec == Ok && strategy.ByRing? ==>
                && (|old(pool.Health())| > 0 ==> OwnersWithin(strategy.ring.ring, |old(pool.Health())|))
                && Selects(strategy.ring.ring, old(pool.Health()), HashOf(routingKey), choice)
      ensures strategy.ByChoice? ==>
                var several := ec == Ok && |HealthyIndices(old(pool.Health()))| >= 2;
                && (several ==> PicksLighter(old(pool.Views()), old(strategy.p2c.draws), j, choice)
                                && j < |old(strategy.p2c.draws)|)
                && strategy.p2c.draws == if several then old(strategy.p2c.draws)[j + 1..] else old(strategy.p2c.draws)
      ensures choice.Success? ==> choice.value < |pool.services|
      ensures var after := TcpProxies.OnAccept(old(View()), old(pool.Views()), idleTimeoutMs, ec, choice);
              && View() == after.proxy && pool.Views() == after.pool
              && (session.None? <==> after.started == [])
              && (session.Some? ==> fresh(session.value) && session.value.backend == pool.services[choice.value]
                                    && after.started == [session.value.View()])
    {
      session, choice := None, Failure(PoolEmpty);
      if ec == Aborted {
        return;
      }
      if ec != Ok {
        AcceptNext();
        return;
      }
      choice := Route(routingKey, j);
      if choice.Failure? {
        AcceptNext();
        return;
      }
      assert pool.Views() == old(pool.Views());
      var s := StartSession(choice.value);
      session := Some(s);
      AcceptNext();
    }
  }
}
