/** The accept chain (core/proxy/TcpProxy.cpp): route, count, start, accept again. */
module TcpProxies {
  import opened Outcomes
  import opened Asio
  import opened ServicePools
  import opened Routing
  import opened Sessions

  datatype Proxy = Proxy(acceptorOpen: bool, accepts: seq<Status>)

  function AcceptNext(p: Proxy): Proxy {
    p.(accepts := p.accepts + [Started(p.acceptorOpen)])
  }

  function Stop(p: Proxy): Proxy {
    Proxy(false, CancelAll(p.accepts))
  }

  /** What handling an accept leaves: the proxy, the pool, and the session started, if one was. */
  datatype Accepted = Accepted(proxy: Proxy, pool: seq<Service>, started: seq<Session>)

  function Count(pool: seq<Service>, b: nat): (r: seq<Service>)
    requires b < |pool|
    ensures |r| == |pool|
  {
    pool[b := pool[b].(active := pool[b].active + 1)]
  }

  /** `choice` is what the strategy answers if it is asked. */
  function OnAccept(
    p: Proxy, pool: seq<Service>, idleTimeoutMs: nat, ec: Ec, choice: Result<nat, RoutingError>): Accepted
    requires choice.Success? ==> choice.value < |pool|
  {
    if ec == Aborted then Accepted(p, pool, [])
    else if ec != Ok || choice.Failure? then Accepted(AcceptNext(p), pool, [])
    else Accepted(AcceptNext(p), Count(pool, choice.value), [StartedSession(choice.value, idleTimeoutMs)])
  }
}
