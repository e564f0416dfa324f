/** What the proxy may rely on whichever strategy it was given (core/routing/IRoutingStrategy.hpp). */
module Routing {
  import opened Outcomes
  import opened ServicePools

  datatype RoutingError = NoHealthyServices | PoolEmpty

  /** The answer fits the pool: each error exactly when it is due, else a healthy service. */
  ghost predicate Answers(health: seq<bool>, r: Result<nat, RoutingError>) {
    && (r == Failure(PoolEmpty) <==> |health| == 0)
    && (r == Failure(NoHealthyServices) <==> |health| > 0 && |HealthyIndices(health)| == 0)
    && (r.Success? ==> r.value in HealthyIndices(health))
  }
}
