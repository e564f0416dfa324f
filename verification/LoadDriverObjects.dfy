/** The driver's shared counters as an object, and the statistics over its results. */
module LoadDriverObjects {
  import opened Sums
  import opened LoadDriver

  class LoadContext {
    const total: nat
    const concurrency: nat
    var inflight: nat
    var launched: nat
    var done: nat
    var peak: nat
    var bytesReceived: nat
    var results: seq<ConnResult>
    var conns: seq<Phase>
    var stops: nat

    ghost function View(): Driver
      reads this
    {
      Driver(total, concurrency, inflight, launched, done, peak, bytesReceived, results, conns, stops)
    }

    constructor (total: nat, concurrency: nat)
      ensures View() == Driver(total, concurrency, 0, 0, 0, 0, 0, [], [], 0)
    {
      this.total, this.concurrency := total, concurrency;
      inflight, launched, done, peak, bytesReceived, stops := 0, 0, 0, 0, 0, 0;
      results, conns := [], [];
    }

    /** The compare-exchange loop that raises the high-water mark, with some spurious failures. */
    method RaisePeak(current: nat, spuriousFailures: nat)
      modifies this`peak
      ensures peak == Max(old(peak), current)
    {
      var seen, left := peak, spuriousFailures;
      while current > seen
        invariant seen == peak == old(peak)
        decreases left
      {
        if left == 0 && peak == seen {
          peak := current;
          return;
        }
        seen, left := peak, left - 1;
      }
    }

    method LaunchWave(spuriousFailures: nat)
      modifies this
      ensures View() == LoadDriver.LaunchWave(old(View()))
    {
      if launched >= total {
        return;
      }
      ghost var before := View();
      ghost var n := 0;
      while inflight < concurrency && launched < total
        invariant n <= WaveSize(before)
        invariant View() == Launch(before, n)
        decreases total - launched
      {
        inflight := inflight + 1;
        var current := inflight;
        launched := launched + 1;
        RaisePeak(current, spuriousFailures);
        conns := conns + [Connecting];
        n := n + 1;
      }
    }

    /** The tail that every failing or finishing handler shares. */
    method Finish(i: nat, result: ConnResult, spuriousFailures: nat)
      requires i < |conns| && inflight > 0
      modifies this
      ensures View() == LoadDriver.Finish(old(View()), i, result)
    {
      results := results + [result];
      if result.ok {
        bytesReceived := bytesReceived + result.bytes;
      }
      conns := Removed(conns, i);
      inflight := inflight - 1;
      done := done + 1;
      LaunchWave(spuriousFailures);
      if done >= total {
        stops := stops + 1;
      }
    }

    method OnConnect(i: nat, ok: bool, ms: real, spuriousFailures: nat)
      requires Enabled(View(), Connected(i, ok, ms))
      modifies this
      ensures View() == Next(old(View()), Connected(i, ok, ms))
    {
      if !ok {
        Finish(i, ConnResult(false, ms, 0), spuriousFailures);
        return;
      }
      conns := conns[i := Writing];
    }

    method OnWriteDone(i: nat, ok: bool, ms: real, spuriousFailures: nat)
      requires Enabled(View(), Written(i, ok, ms))
      modifies this
      ensures View() == Next(old(View()), Written(i, ok, ms))
    {
      if !ok {
        Finish(i, ConnResult(false, ms, 0), spuriousFailures);
        return;
      }
      conns := conns[i := Reading(0)];
    }

    method OnReadSome(i: nat, outcome: ReadOutcome, ms: real, spuriousFailures: nat)
      requires Enabled(View(), ReadSome(i, outcome, ms))
      modifies this
      ensures View() == Next(old(View()), ReadSome(i, outcome, ms))
    {
      var bytes := conns[i].bytes;
      if outcome.Data? {
        conns := conns[i := Reading(bytes + outcome.n)];
        return;
      }
      var ok := outcome == Eof || outcome == Reset;
      Finish(i, ConnResult(ok, ms, bytes), spuriousFailures);
    }
  }

  /**
   * A whole load: the first wave, then whatever events the loop delivers. The object goes through the
   * states of the driver, and stops, once, exactly with a result for every request.
   */
  method RunLoad(total: nat, concurrency: nat, events: seq<Event>, spuriousFailures: nat) returns (ctx: LoadContext)
    requires IsRun(Started(total, concurrency), events)
    ensures fresh(ctx) && ctx.View() == After(Started(total, concurrency), events)
    ensures ctx.results == ResultsTold(Started(total, concurrency),
                                       Untouched(|Started(total, concurrency).conns|), events)
    ensures total > 0 && concurrency > 0 ==>
              && ctx.inflight <= ctx.peak <= concurrency
              && ctx.launched == ctx.inflight + |ctx.results| && (ctx.stops == 1 <==> |ctx.results| == total)
              && ctx.stops <= 1
  {
    ctx := new LoadContext(total, concurrency);
    ctx.LaunchWave(spuriousFailures);
    ghost var start := ctx.View();
    for k := 0 to |events|
      invariant fresh(ctx) && ctx.View().total == total && ctx.View().concurrency == concurrency
      invariant IsRun(ctx.View(), events[k..]) && After(ctx.View(), events[k..]) == After(start, events)
    {
      assert events[k..][0] == events[k] && events[k..][1..] == events[k + 1..];
      match events[k]
      case Connected(i, ok, ms) => ctx.OnConnect(i, ok, ms, spuriousFailures);
      case Written(i, ok, ms) => ctx.OnWriteDone(i, ok, ms, spuriousFailures);
      case ReadSome(i, outcome, ms) => ctx.OnReadSome(i, outcome, ms, spuriousFailures);
    }
    assert events[|events|..] == [];
    ResultsAreTold(total, concurrency, events);
    if total > 0 && concurrency > 0 {
      DriverIsExact(total, concurrency, events);
    }
  }

  // ----- statistics -----

  datatype Stats = Stats(
    completed: nat, errors: nat, peak: nat, bytesReceived: nat, throughput: int,
    min: real, avg: real, p50: real, p95: real, p99: real, max: real)

  /** `std::accumulate` */
  function Total(s: seq<real>): real {
    if s == [] then 0.0 else Total(s[..|s| - 1]) + s[|s| - 1]
  }

  lemma {:induction false} TotalConcat(a: seq<real>, b: seq<real>)
    ensures Total(a + b) == Total(a) + Total(b)
    ensures |b| == 1 ==> Total(b) == b[0]
    decreases |b|
  {
    if b == [] {
      assert a + b == a;
    } else {
      var last := |b| - 1;
      assert (a + b)[..|a + b| - 1] == a + b[..last];
      TotalConcat(a, b[..last]);
    }
  }

  /** The average lies between the bounds of the values. */
  lemma {:induction false} TotalBounds(s: seq<real>, low: real, high: real)
    requires forall i | 0 <= i < |s| :: low <= s[i] <= high
    ensures |s| as real * low <= Total(s) <= |s| as real * high
  {
    if s != [] {
      var n := |s| - 1;
      TotalBounds(s[..n], low, high);
      assert |s| as real == n as real + 1.0;
      assert (n as real + 1.0) * low == n as real * low + low;
      assert (n as real + 1.0) * high == n as real * high + high;
    }
  }

  lemma AverageBetween(n: nat, total: real, low: real, high: real)
    requires n > 0 && n as real * low <= total <= n as real * high
    ensures low <= total / n as real <= high
  {
    var m := n as real;
    var avg := total / m;
    assert avg * m == total;
    assert (avg - low) * m == avg * m - m * low;
    assert (high - avg) * m == m * high - avg * m;
    NotNegative(avg - low, m);
    NotNegative(high - avg, m);
  }

  lemma NotNegative(x: real, m: real)
    requires x * m >= 0.0 && m > 0.0
    ensures x >= 0.0
  {}

  /** The latencies of the successful results, in order. */
  function OkLatencies(results: seq<ConnResult>): seq<real> {
    if results == [] then []
    else
      var last := results[|results| - 1];
      OkLatencies(results[..|results| - 1]) + if last.ok then [last.ms] else []
  }

  /** The positions of the successful results. */
  function OkIndices(results: seq<ConnResult>): set<nat> {
    set i: nat | i < |results| && results[i].ok
  }

  function OkIndicesWith(results: seq<ConnResult>, ms: real): set<nat> {
    set i: nat | i < |results| && results[i].ok && results[i].ms == ms
  }

  lemma OkIndicesOfPrefix(results: seq<ConnResult>, ms: real)
    requires results != []
    ensures var n: nat := |results| - 1;
            && n !in OkIndices(results[..n]) && n !in OkIndicesWith(results[..n], ms)
            && OkIndices(results) == OkIndices(results[..n]) + (if results[n].ok then {n} else {})
            && OkIndicesWith(results, ms)
               == OkIndicesWith(results[..n], ms) + (if results[n].ok && results[n].ms == ms then {n} else {})
  {}

  /** One latency for each success, each as often as there are successes that took so long. */
  lemma {:induction false} OkLatenciesContents(results: seq<ConnResult>, ms: real)
    ensures |OkLatencies(results)| == |OkIndices(results)|
    ensures multiset(OkLatencies(results))[ms] == |OkIndicesWith(results, ms)|
  {
    if results == [] {
      assert OkIndices(results) == {} && OkIndicesWith(results, ms) == {};
    } else {
      var n := |results| - 1;
      OkLatenciesContents(results[..n], ms);
      OkIndicesOfPrefix(results, ms);
      hide OkIndices, OkIndicesWith;
      assert multiset(OkLatencies(results))
          == multiset(OkLatencies(results[..n])) + multiset(if results[n].ok then [results[n].ms] else []);
    }
  }

  ghost predicate Ascending(s: seq<real>) {
    forall i, j | 0 <= i < j < |s| :: s[i] <= s[j]
  }

  method InsertAscending(s: seq<real>, x: real) returns (r: seq<real>)
    requires Ascending(s)
    ensures Ascending(r) && multiset(r) == multiset(s + [x])
  {
    var i := |s|;
    while i > 0 && s[i - 1] > x
      invariant 0 <= i <= |s|
      invariant forall j | i <= j < |s| :: s[j] > x
    {
      i := i - 1;
    }
    InsertedBag(s, i, x);
    r := s[..i] + [x] + s[i..];
  }

  /** The contract of `std::ranges::sort`. */
  method SortLatencies(s: seq<real>) returns (r: seq<real>)
    ensures Ascending(r) && multiset(r) == multiset(s)
  {
    r := [];
    for i := 0 to |s|
      invariant Ascending(r) && multiset(r) == multiset(s[..i])
    {
      assert s[..i + 1] == s[..i] + [s[i]];
      r := InsertAscending(r, s[i]);
    }
    assert s[..|s|] == s;
  }

  /** The percentiles are the latencies at their ranks in ascending order. */
  ghost predicate Ranked(stats: Stats, sorted: seq<real>, latencies: seq<real>) {
    && Ascending(sorted) && multiset(sorted) == multiset(latencies) && |sorted| == |latencies| > 0
    && stats.min == sorted[0]
    && stats.p50 == sorted[|sorted| * 50 / 100]
    && stats.p95 == sorted[|sorted| * 95 / 100]
    && stats.p99 == sorted[|sorted| * 99 / 100]
    && stats.max == sorted[|sorted| - 1]
    && stats.avg == Total(sorted) / |sorted| as real
  }

  lemma RanksInOrder(n: nat)
    requires n > 0
    ensures n * 50 / 100 <= n * 95 / 100 <= n * 99 / 100 <= n - 1
  {}

  lemma AverageOfSorted(sorted: seq<real>)
    requires Ascending(sorted) && sorted != []
    ensures sorted[0] <= Total(sorted) / |sorted| as real <= sorted[|sorted| - 1]
  {
    hide Total;
    TotalBounds(sorted, sorted[0], sorted[|sorted| - 1]);
    AverageBetween(|sorted|, Total(sorted), sorted[0], sorted[|sorted| - 1]);
  }

  lemma RankedInOrder(stats: Stats, sorted: seq<real>, latencies: seq<real>)
    requires Ranked(stats, sorted, latencies)
    ensures stats.min <= stats.p50 <= stats.p95 <= stats.p99 <= stats.max
    ensures stats.min <= stats.avg <= stats.max
  {
    hide Total;
    RanksInOrder(|sorted|);
    AverageOfSorted(sorted);
  }

  function Product(x: real, y: real): real {
    x * y
  }

  /** Completed requests per second, cut off; nothing is measured without wall time. */
  ghost predicate IsThroughput(t: int, completed: nat, totalWallMs: real) {
    if totalWallMs > 0.0
    then Product(t as real, totalWallMs) <= completed as real * 1000.0 < Product(t as real + 1.0, totalWallMs)
    else t == 0
  }

  lemma ProductPositive(x: real, y: real)
    requires x > 0.0 && y > 0.0
    ensures x * y > 0.0
  {}

  lemma ProductGrows(a: real, b: real, y: real)
    requires a < b && y > 0.0
    ensures Product(a, y) < Product(b, y)
  {
    ProductPositive(b - a, y);
    assert (b - a) * y == b * y - a * y;
  }

  lemma DivideBack(a: real, y: real)
    requires y > 0.0
    ensures Product(a / y, y) == a
  {}

  lemma FloorOfQuotient(a: real, q: real, y: real, x: real)
    requires y > 0.0 && Product(q, y) == a && x <= q < x + 1.0
    ensures Product(x, y) <= a < Product(x + 1.0, y)
  {
    hide Product;
    ProductGrows(q, x + 1.0, y);
    if x < q {
      ProductGrows(x, q, y);
    }
  }

  method Throughput(completed: nat, totalWallMs: real) returns (t: int)
    ensures IsThroughput(t, completed, totalWallMs)
  {
    hide Product;
    t := 0;
    if totalWallMs > 0.0 {
      var rate := completed as real * 1000.0 / totalWallMs;
      t := rate.Floor;
      DivideBack(completed as real * 1000.0, totalWallMs);
      FloorOfQuotient(completed as real * 1000.0, rate, totalWallMs, t as real);
    }
  }

  method Accumulate(s: seq<real>) returns (total: real)
    ensures total == Total(s)
  {
    total := 0.0;
    for i := 0 to |s|
      invariant total == Total(s[..i])
    {
      assert s[..i + 1][..i] == s[..i];
      total := total + s[i];
    }
    assert s[..|s|] == s;
  }

  method ComputeStats(results: seq<ConnResult>, peak: nat, bytesReceived: nat, totalWallMs: real)
    returns (stats: Stats)
    ensures stats.completed + stats.errors == |results|
    ensures stats.completed == |OkLatencies(results)| == |OkIndices(results)|
    ensures stats.peak == peak && stats.bytesReceived == bytesReceived
    ensures IsThroughput(stats.throughput, stats.completed, totalWallMs)
    ensures stats.completed > 0 ==>
              && (exists sorted :: Ranked(stats, sorted, OkLatencies(results)))
              && stats.min <= stats.p50 <= stats.p95 <= stats.p99 <= stats.max
              && stats.min <= stats.avg <= stats.max
    ensures stats.completed == 0 ==>
              stats == Stats(0, |results|, peak, bytesReceived, stats.throughput, 0.0, 0.0, 0.0, 0.0, 0.0, 0.0)
  {
    var completed, errors := 0, 0;
    var latencies: seq<real> := [];
    for i := 0 to |results|
      invariant latencies == OkLatencies(results[..i])
      invariant completed == |latencies| && completed + errors == i
    {
      assert results[..i + 1][..i] == results[..i];
      if results[i].ok {
        completed := completed + 1;
        latencies := latencies + [results[i].ms];
      } else {
        errors := errors + 1;
      }
    }
    assert results[..|results|] == results;
    OkLatenciesContents(results, 0.0);
    hide OkIndices;
    var throughput := Throughput(completed, totalWallMs);
    hide IsThroughput;
    if |latencies| == 0 {
      return Stats(completed, errors, peak, bytesReceived, throughput, 0.0, 0.0, 0.0, 0.0, 0.0, 0.0);
    }
    var sorted := SortLatencies(latencies);
    assert |sorted| == |multiset(sorted)| == |latencies|;
    var n := |sorted|;
    var total := Accumulate(sorted);
    stats := Stats(completed, errors, peak, bytesReceived, throughput, sorted[0], total / n as real,
                   sorted[n * 50 / 100], sorted[n * 95 / 100], sorted[n * 99 / 100], sorted[n - 1]);
    assert Ranked(stats, sorted, latencies);
    hide Ranked;
    RankedInOrder(stats, sorted, latencies);
  }

  /** Together: when a run stops, the statistics account for every request. */
  lemma StoppedRunAccountsForAll(total: nat, concurrency: nat, events: seq<Event>, stats: Stats)
    requires total > 0 && concurrency > 0 && IsRun(Started(total, concurrency), events)
    requires After(Started(total, concurrency), events).stops > 0
    requires stats.completed + stats.errors == |After(Started(total, concurrency), events).results|
    ensures stats.completed + stats.errors == total
  {
    DriverIsExact(total, concurrency, events);
  }
}
