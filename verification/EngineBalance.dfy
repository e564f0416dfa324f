/** The load bound of power of two choices, for the counts that the running engine itself keeps. */
module EngineBalance {
  import opened Outcomes
  import opened Sums
  import opened Asio
  import opened ServicePools
  import opened Routing
  import opened PowerOfTwoChoices
  import opened Sessions
  import SessionDeadlines
  import opened TcpProxies
  import opened EventLoop

  /** A good accept is routed by power of two choices, among two healthy services at least. */
  ghost predicate ByTwoChoices(s: System, e: LoopEvent) {
    e.HandlesAccept? && e.i < |s.proxy.accepts| && s.proxy.accepts[e.i] == Ready(Ok) ==>
      exists draws, j :: PicksLighter(s.pool, draws, j, e.choice)
  }

  ghost predicate EndsNone(s: System, e: LoopEvent)
    requires Enabled(s, e)
  {
    e.InSession? ==> Step(s.sessions[e.i], e.e).value.pending != []
  }

  /** A run that routes every connection so, and in which no session ends; health may flip at will. */
  ghost predicate IsGrowingRun(s: System, events: seq<LoopEvent>)
    decreases |events|
  {
    events == []
    || (Enabled(s, events[0]) && ByTwoChoices(s, events[0]) && EndsNone(s, events[0])
        && IsGrowingRun(Next(s, events[0]), events[1..]))
  }

  lemma {:induction false} GrowingRunIsRun(s: System, events: seq<LoopEvent>)
    requires IsGrowingRun(s, events)
    ensures EventLoop.IsRun(s, events)
    decreases |events|
  {
    hide Enabled, Next, ByTwoChoices, EndsNone;
    if events != [] {
      GrowingRunIsRun(Next(s, events[0]), events[1..]);
    }
  }

  /** Such an answer is a draw of two different healthy services, counted on the lighter. */
  lemma PickIsACount(pool: seq<Service>, draws: seq<nat>, j: nat, choice: Result<nat, RoutingError>)
    returns (accept: Accept)
    requires PicksLighter(pool, draws, j, choice)
    ensures choice.value < |pool|
    ensures DrawnFrom(Loads(pool), accept)
    ensures Loads(Count(pool, choice.value)) == Counted(Loads(pool), accept)
  {
    var health := HealthOf(pool);
    accept := Accept(health, HealthyList(health)[draws[0]], HealthyList(health)[draws[j]]);
    SelectionIsADraw(health, Loads(pool), draws, j);
  }

  /** An event counts one connection for each session it starts, and touches no count otherwise. */
  lemma EventCounts(s: System, e: LoopEvent) returns (accepts: seq<Accept>)
    requires Enabled(s, e) && ByTwoChoices(s, e) && EndsNone(s, e)
    ensures PowerOfTwoChoices.IsRun(Loads(s.pool), accepts)
    ensures LoadsAfter(Loads(s.pool), accepts) == Loads(Next(s, e).pool)
    ensures |Next(s, e).sessions| == |s.sessions| + |accepts|
  {
    hide Step, Answers, PicksLighter;
    if e.HandlesAccept? && s.proxy.accepts[e.i] == Ready(Ok) {
      var draws, j :| PicksLighter(s.pool, draws, j, e.choice);
      var accept := PickIsACount(s.pool, draws, j, e.choice);
      assert e.choice.Success? by {
        PickSucceeds(s.pool, draws, j, e.choice);
      }
      accepts := [accept];
      assert accepts[..0] == [];
    } else {
      assert Loads(Next(s, e).pool) == Loads(s.pool);
      accepts := [];
    }
  }

  lemma PickSucceeds(views: seq<Service>, draws: seq<nat>, j: nat, choice: Result<nat, RoutingError>)
    requires PicksLighter(views, draws, j, choice)
    ensures choice.Success?
  {}

  lemma {:induction false} RunsConcat(loads: seq<nat>, a: seq<Accept>, b: seq<Accept>)
    requires PowerOfTwoChoices.IsRun(loads, a) && PowerOfTwoChoices.IsRun(LoadsAfter(loads, a), b)
    ensures PowerOfTwoChoices.IsRun(loads, a + b)
    ensures LoadsAfter(loads, a + b) == LoadsAfter(LoadsAfter(loads, a), b)
    decreases |b|
  {
    if b == [] {
      assert a + b == a;
    } else {
      var last := |b| - 1;
      RunsConcat(loads, a, b[..last]);
      assert (a + b)[..|a + b| - 1] == a + b[..last];
    }
  }

  /** A growing run of the engine is a run of accepts, one for each session it starts. */
  lemma {:induction false} GrowingRunIsRunOfAccepts(s: System, events: seq<LoopEvent>) returns (accepts: seq<Accept>)
    requires IsGrowingRun(s, events) && EventLoop.IsRun(s, events)
    ensures PowerOfTwoChoices.IsRun(Loads(s.pool), accepts)
    ensures LoadsAfter(Loads(s.pool), accepts) == Loads(After(s, events).pool)
    ensures |After(s, events).sessions| == |s.sessions| + |accepts|
    decreases |events|
  {
    if events == [] {
      return [];
    }
    hide Enabled, Next, ByTwoChoices, EndsNone, PowerOfTwoChoices.IsRun, LoadsAfter;
    var first := EventCounts(s, events[0]);
    var rest := GrowingRunIsRunOfAccepts(Next(s, events[0]), events[1..]);
    RunsConcat(Loads(s.pool), first, rest);
    accepts := first + rest;
  }

  /**
   * So with n sessions up, no service of the engine's pool has more than half of them, rounded up,
   * whatever was drawn and whatever the health checks did in between.
   */
  lemma EngineLoadBound(
    services: nat, idleTimeoutMs: nat, threshold: nat, checking: bool, events: seq<LoopEvent>, b: nat)
    requires IsGrowingRun(Initial(services, idleTimeoutMs, threshold, checking), events)
    ensures EventLoop.IsRun(Initial(services, idleTimeoutMs, threshold, checking), events)
    ensures var s := After(Initial(services, idleTimeoutMs, threshold, checking), events);
            b < |s.pool| ==> s.pool[b].active <= (|s.sessions| + 1) / 2
  {
    var start := Initial(services, idleTimeoutMs, threshold, checking);
    GrowingRunIsRun(start, events);
    var s := After(start, events);
    var accepts := GrowingRunIsRunOfAccepts(start, events);
    if b < |s.pool| {
      LoadBound(Loads(start.pool), accepts, b);
      assert Loads(s.pool)[b] == s.pool[b].active;
    }
  }
}
