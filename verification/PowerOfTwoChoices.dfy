/** Power of two choices (core/routing/P2CStrategy.cpp), and the load bound it gives. */
module PowerOfTwoChoices {
  import opened Outcomes
  import opened ServicePools
  import opened Routing
  import opened Sums

  // ----- one selection -----

  /** The healthy indices in the order the scan collects them. */
  function HealthyList(health: seq<bool>): seq<nat> {
    if health == [] then []
    else
      var last := |health| - 1;
      HealthyList(health[..last]) + if health[last] then [last] else []
  }

  lemma HealthyIndicesOfPrefix(health: seq<bool>)
    requires health != []
    ensures var last := |health| - 1;
            && HealthyIndices(health) == HealthyIndices(health[..last]) + (if health[last] then {last} else {})
            && last !in HealthyIndices(health[..last])
  {}

  /** The scan collects every healthy index, once. */
  lemma {:induction false} HealthyListContents(health: seq<bool>)
    ensures forall i: nat :: i in HealthyList(health) <==> i in HealthyIndices(health)
    ensures |HealthyList(health)| == |HealthyIndices(health)|
  {
    if health == [] {
      assert HealthyIndices(health) == {};
    } else {
      HealthyListContents(health[..|health| - 1]);
      HealthyIndicesOfPrefix(health);
      hide HealthyIndices;
    }
  }

  lemma {:induction false} HealthyListIncreases(health: seq<bool>)
    ensures forall a | 0 <= a < |HealthyList(health)| :: HealthyList(health)[a] < |health|
    ensures forall a, b | 0 <= a < b < |HealthyList(health)| :: HealthyList(health)[a] < HealthyList(health)[b]
  {
    if health != [] {
      HealthyListIncreases(health[..|health| - 1]);
    }
  }

  /** The lighter of two candidates; the first wins a tie. */
  function Lighter(loads: seq<nat>, a: nat, b: nat): nat
    requires a < |loads| && b < |loads|
  {
    if loads[a] <= loads[b] then a else b
  }

  function Loads(views: seq<Service>): (loads: seq<nat>)
    ensures |loads| == |views|
  {
    seq(|views|, i requires 0 <= i < |views| => views[i].active)
  }

  /** The draws end at position j: the first that differs from draw 0, all of them below n. */
  ghost predicate EndsAt(draws: seq<nat>, n: nat, j: nat) {
    && 0 < j < |draws|
    && (forall i | 0 <= i <= j :: draws[i] < n)
    && (forall i | 0 < i < j :: draws[i] == draws[0])
    && draws[j] != draws[0]
  }

  /**
   * Of the two healthy services at draws 0 and j the answer is one with no more active connections
   * than the other; with equal numbers it is the one drawn first.
   */
  ghost predicate PicksLighter(views: seq<Service>, draws: seq<nat>, j: nat, r: Result<nat, RoutingError>) {
    var healthy := HealthyList(HealthOf(views));
    && EndsAt(draws, |healthy|, j)
    && r.Success?
    && var a, b := healthy[draws[0]], healthy[draws[j]];
       && a < |views| && b < |views| && a != b && views[a].healthy && views[b].healthy
       && (r.value == a || r.value == b)
       && (r.value == a <==> views[a].active <= views[b].active)
  }

  class P2CStrategy {
    /** What the uniform distribution over the generator will still yield. */
    var draws: seq<nat>

    constructor (draws: seq<nat>)
      ensures this.draws == draws
    {
      this.draws := draws;
    }

    method Draw() returns (d: nat)
      requires draws != []
      modifies this
      ensures d == old(draws)[0] && draws == old(draws)[1..]
    {
      d := draws[0];
      draws := draws[1..];
    }

    method CollectHealthy(pool: ServicePool) returns (healthy: seq<nat>)
      ensures healthy == HealthyList(pool.Health())
    {
      ghost var health := pool.Health();
      healthy := [];
      for i := 0 to |pool.services|
        invariant healthy == HealthyList(health[..i])
      {
        assert health[..i + 1][..i] == health[..i];
        if pool.services[i].healthy {
          healthy := healthy + [i];
        }
      }
      assert health[..|health|] == health;
    }

    /** Given a stream in which the redraw loop ends, at draw j. */
    method SelectService(pool: ServicePool, ghost j: nat) returns (r: Result<nat, RoutingError>)
      requires |HealthyIndices(pool.Health())| >= 2 ==> EndsAt(draws, |HealthyIndices(pool.Health())|, j)
      modifies this
      ensures Answers(old(pool.Health()), r)
      ensures |HealthyIndices(old(pool.Health()))| < 2 ==> draws == old(draws)
      ensures |HealthyIndices(old(pool.Health()))| >= 2 ==> PicksLighter(old(pool.Views()), old(draws), j, r)
      ensures |HealthyIndices(old(pool.Health()))| >= 2 ==>
                && draws == old(draws)[j + 1..]
                && var healthy := HealthyList(old(pool.Health()));
                   |healthy| == |HealthyIndices(old(pool.Health()))|
                   && (forall i | 0 <= i < |healthy| :: healthy[i] < |old(pool.Views())|)
                   && r == Success(Lighter(Loads(old(pool.Views())), healthy[old(draws)[0]], healthy[old(draws)[j]]))
    {
      ghost var health, before := pool.Health(), draws;
      HealthyListContents(health);
      HealthyListIncreases(health);
      if |pool.services| == 0 {
        return Failure(PoolEmpty);
      }
      var healthy := CollectHealthy(pool);
      if |healthy| == 0 {
        return Failure(NoHealthyServices);
      }
      forall i | 0 <= i < |healthy|
        ensures healthy[i] in HealthyIndices(health)
      {
        assert healthy[i] in HealthyList(health);
      }
      if |healthy| == 1 {
        return Success(healthy[0]);
      }
      assert HealthOf(pool.Views()) == health;
      var a := Draw();
      var b := Draw();
      ghost var drawn := 1;
      while b == a
        invariant 1 <= drawn <= j
        invariant a == before[0] && b == before[drawn] && draws == before[drawn + 1..]
        decreases j - drawn
      {
        b := Draw();
        drawn := drawn + 1;
      }
      if pool.services[healthy[a]].activeConnections <= pool.services[healthy[b]].activeConnections {
        return Success(healthy[a]);
      }
      return Success(healthy[b]);
    }
  }

  // ----- runs of accepts -----

  /** One accept: the health seen by the scan, and the two services drawn. */
  datatype Accept = Accept(health: seq<bool>, first: nat, second: nat)

  /** Two different healthy services were drawn. */
  ghost predicate DrawnFrom(loads: seq<nat>, accept: Accept) {
    && |accept.health| == |loads|
    && accept.first in HealthyIndices(accept.health)
    && accept.second in HealthyIndices(accept.health)
    && accept.first != accept.second
  }

  /** The proxy counts the new session on the service selected. */
  function Counted(loads: seq<nat>, accept: Accept): (r: seq<nat>)
    requires accept.first < |loads| && accept.second < |loads|
    ensures |r| == |loads|
  {
    var chosen := Lighter(loads, accept.first, accept.second);
    loads[chosen := loads[chosen] + 1]
  }

  ghost predicate IsRun(loads: seq<nat>, accepts: seq<Accept>) {
    accepts == [] || (IsRun(loads, accepts[..|accepts| - 1])
                      && DrawnFrom(loads, accepts[|accepts| - 1]))
  }

  /** The loads after a run in which no session ends. */
  ghost function LoadsAfter(loads: seq<nat>, accepts: seq<Accept>): (r: seq<nat>)
    requires IsRun(loads, accepts)
    ensures |r| == |loads|
  {
    if accepts == [] then loads
    else Counted(LoadsAfter(loads, accepts[..|accepts| - 1]), accepts[|accepts| - 1])
  }

  function Itself(n: nat): nat { n }

  function Total(loads: seq<nat>): nat {
    Sum(loads, Itself)
  }

  /** No load leads every other load by more than one. */
  ghost predicate Balanced(loads: seq<nat>) {
    forall i | 0 <= i < |loads| && loads[i] > 0 :: HasRival(loads, i)
  }

  ghost predicate HasRival(loads: seq<nat>, i: nat)
    requires i < |loads|
  {
    exists j | 0 <= j < |loads| :: j != i && loads[i] <= loads[j] + 1
  }

  lemma CountingKeepsBalance(loads: seq<nat>, accept: Accept)
    requires DrawnFrom(loads, accept) && Balanced(loads)
    ensures Balanced(Counted(loads, accept))
  {
    var r := Counted(loads, accept);
    var chosen := Lighter(loads, accept.first, accept.second);
    forall i | 0 <= i < |r| && r[i] > 0
      ensures HasRival(r, i)
    {
      if i == chosen {
        var other := accept.first + accept.second - chosen;
        assert r[i] <= r[other] + 1;
      } else {
        var j :| 0 <= j < |loads| && j != i && loads[i] <= loads[j] + 1;
        assert r[i] <= r[j] + 1;
      }
    }
  }

  /** The loads always add up to the number of sessions accepted. */
  lemma {:induction false} EverySessionCounted(loads: seq<nat>, accepts: seq<Accept>)
    requires IsRun(loads, accepts)
    ensures Total(LoadsAfter(loads, accepts)) == Total(loads) + |accepts|
  {
    if accepts != [] {
      var last := |accepts| - 1;
      EverySessionCounted(loads, accepts[..last]);
      var mid, accept := LoadsAfter(loads, accepts[..last]), accepts[last];
      var chosen := Lighter(mid, accept.first, accept.second);
      SumUpdate(mid, chosen, mid[chosen] + 1, Itself);
    }
  }

  /** Whatever is drawn and however health flips in between, balance is kept. */
  lemma {:induction false} RunKeepsBalance(loads: seq<nat>, accepts: seq<Accept>)
    requires IsRun(loads, accepts) && Balanced(loads)
    ensures Balanced(LoadsAfter(loads, accepts))
  {
    hide Balanced;
    if accepts != [] {
      var last := |accepts| - 1;
      RunKeepsBalance(loads, accepts[..last]);
      CountingKeepsBalance(LoadsAfter(loads, accepts[..last]), accepts[last]);
    }
  }

  /**
   * From an idle pool: after any run of accepts, no service holds more than half of the
   * sessions, rounded up.
   */
  lemma LoadBound(loads: seq<nat>, accepts: seq<Accept>, i: nat)
    requires forall k | 0 <= k < |loads| :: loads[k] == 0
    requires IsRun(loads, accepts) && i < |loads|
    ensures LoadsAfter(loads, accepts)[i] <= (|accepts| + 1) / 2
  {
    SumZero(loads, Itself);
    EverySessionCounted(loads, accepts);
    RunKeepsBalance(loads, accepts);
    var r := LoadsAfter(loads, accepts);
    if r[i] > 0 {
      assert HasRival(r, i);
      var j :| 0 <= j < |r| && j != i && r[i] <= r[j] + 1;
      SumTwo(r, i, j, Itself);
    }
  }

  /** A selection among two or more healthy services is such a draw. */
  lemma SelectionIsADraw(health: seq<bool>, loads: seq<nat>, draws: seq<nat>, j: nat)
    requires |health| == |loads| && EndsAt(draws, |HealthyList(health)|, j)
    ensures DrawnFrom(loads, Accept(health, HealthyList(health)[draws[0]], HealthyList(health)[draws[j]]))
  {
    var healthy := HealthyList(health);
    HealthyListContents(health);
    HealthyListIncreases(health);
    assert healthy[draws[0]] in healthy && healthy[draws[j]] in healthy;
  }

  /** The bound is tight: two services always share n sessions as evenly as it says. */
  lemma {:induction false} BoundIsTight(n: nat) returns (accepts: seq<Accept>)
    ensures |accepts| == n && IsRun([0, 0], accepts)
    ensures LoadsAfter([0, 0], accepts) == [(n + 1) / 2, n / 2]
  {
    if n == 0 {
      return [];
    }
    var shorter := BoundIsTight(n - 1);
    var accept := Accept([true, true], 0, 1);
    accepts := shorter + [accept];
    assert accepts[..n - 1] == shorter;
  }
}
