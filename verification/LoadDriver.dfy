/** The closed-loop load driver of the benchmark (bench/main.cpp): its handlers, as functions on states. */
module LoadDriver {
  import opened Sums

  /** What a connection in flight is waiting for. */
  datatype Phase = Connecting | Writing | Reading(bytes: nat)

  datatype ConnResult = ConnResult(ok: bool, ms: real, bytes: nat)

  datatype Driver = Driver(
    total: nat, concurrency: nat,
    inflight: nat, launched: nat, done: nat, peak: nat, bytesReceived: nat,
    results: seq<ConnResult>, conns: seq<Phase>, stops: nat)

  datatype ReadOutcome = Data(n: nat) | Eof | Reset | OtherFailure

  datatype Event =
    | Connected(i: nat, ok: bool, ms: real)
    | Written(i: nat, ok: bool, ms: real)
    | ReadSome(i: nat, outcome: ReadOutcome, ms: real)

  function Min(a: int, b: int): int { if a <= b then a else b }

  function Max(a: nat, b: nat): nat { if a <= b then b else a }

  // ----- the handlers -----

  /** How many connections a wave opens: as many as fit under both limits. */
  function WaveSize(d: Driver): nat {
    if d.inflight <= d.concurrency && d.launched <= d.total
    then Min(d.concurrency - d.inflight, d.total - d.launched) else 0
  }

  function Launch(d: Driver, n: nat): Driver {
    d.(inflight := d.inflight + n, launched := d.launched + n, conns := d.conns + seq(n, _ => Connecting),
       peak := if n == 0 then d.peak else Max(d.peak, d.inflight + n))
  }

  function LaunchWave(d: Driver): Driver {
    Launch(d, WaveSize(d))
  }

  /** Recording a finished connection, filling its place, and stopping the loop after the last. */
  function Finish(d: Driver, i: nat, result: ConnResult): Driver
    requires i < |d.conns| && d.inflight > 0
  {
    var counted := d.(conns := Removed(d.conns, i), results := d.results + [result],
                      bytesReceived := d.bytesReceived + if result.ok then result.bytes else 0,
                      inflight := d.inflight - 1, done := d.done + 1);
    var next := LaunchWave(counted);
    next.(stops := next.stops + if next.done >= next.total then 1 else 0)
  }

  function Advance(d: Driver, i: nat, phase: Phase): Driver
    requires i < |d.conns|
  {
    d.(conns := d.conns[i := phase])
  }

  /** A handler may run while the loop has not been stopped. */
  predicate Enabled(d: Driver, e: Event) {
    && d.stops == 0 && e.i < |d.conns| && d.inflight > 0
    && match e
       case Connected(i, _, _) => d.conns[i] == Connecting
       case Written(i, _, _) => d.conns[i] == Writing
       case ReadSome(i, _, _) => d.conns[i].Reading?
  }

  function Next(d: Driver, e: Event): Driver
    requires Enabled(d, e)
  {
    match e
    case Connected(i, ok, ms) => if ok then Advance(d, i, Writing) else Finish(d, i, ConnResult(false, ms, 0))
    case Written(i, ok, ms) => if ok then Advance(d, i, Reading(0)) else Finish(d, i, ConnResult(false, ms, 0))
    case ReadSome(i, outcome, ms) =>
      if outcome.Data? then Advance(d, i, Reading(d.conns[i].bytes + outcome.n))
      else Finish(d, i, ConnResult(outcome != OtherFailure, ms, d.conns[i].bytes))
  }

  function Started(total: nat, concurrency: nat): Driver {
    LaunchWave(Driver(total, concurrency, 0, 0, 0, 0, 0, [], [], 0))
  }

  predicate IsRun(d: Driver, events: seq<Event>)
    decreases |events|
  {
    events == [] || (Enabled(d, events[0]) && IsRun(Next(d, events[0]), events[1..]))
  }

  function After(d: Driver, events: seq<Event>): Driver
    requires IsRun(d, events)
    decreases |events|
  {
    if events == [] then d else After(Next(d, events[0]), events[1..])
  }

  // ----- what every reachable state satisfies -----

  function OkBytes(r: ConnResult): nat {
    if r.ok then r.bytes else 0
  }

  /**
   * The window is always as full as the requests left allow, nothing is counted twice or lost,
   * the peak is the widest the window gets, and the loop is stopped once, at the very end.
   */
  ghost predicate Valid(d: Driver) {
    && d.launched == d.inflight + d.done
    && |d.results| == d.done <= d.total
    && |d.conns| == d.inflight == Min(d.concurrency, d.total - d.done)
    && d.peak == Min(d.concurrency, d.total)
    && d.bytesReceived == Sum(d.results, OkBytes)
    && d.stops == if d.done == d.total then 1 else 0
  }

  lemma FinishKeepsValid(d: Driver, i: nat, result: ConnResult)
    requires d.concurrency > 0 && Valid(d) && i < |d.conns| && d.stops == 0
    ensures Valid(Finish(d, i, result))
  {
    SumAppend(d.results, result, OkBytes);
  }

  lemma StartIsValid(total: nat, concurrency: nat)
    requires total > 0 && concurrency > 0
    ensures Valid(Started(total, concurrency))
  {}

  /** Until the loop is stopped, whatever a connection waits for may happen, with any outcome. */
  lemma EveryOutcomeIsPossible(d: Driver, i: nat, ok: bool, outcome: ReadOutcome, ms: real)
    requires Valid(d) && d.stops == 0 && i < |d.conns|
    ensures match d.conns[i]
            case Connecting => Enabled(d, Connected(i, ok, ms))
            case Writing => Enabled(d, Written(i, ok, ms))
            case Reading(_) => Enabled(d, ReadSome(i, outcome, ms))
  {}

  /** The driver starts out stuck, never to be stopped, exactly if it is asked for nothing. */
  lemma StuckExactlyWithoutWork(total: nat, concurrency: nat)
    ensures (forall e :: !Enabled(Started(total, concurrency), e)) <==> total == 0 || concurrency == 0
    ensures Started(total, concurrency).stops == 0
  {
    if total > 0 && concurrency > 0 {
      StartIsValid(total, concurrency);
      assert Enabled(Started(total, concurrency), Connected(0, true, 0.0));
    }
  }

  lemma EventKeepsValid(d: Driver, e: Event)
    requires d.concurrency > 0 && Valid(d) && Enabled(d, e)
    ensures Valid(Next(d, e))
    ensures Next(d, e).total == d.total && Next(d, e).concurrency == d.concurrency
  {
    match e
    case Connected(i, ok, ms) =>
      if !ok {
        FinishKeepsValid(d, i, ConnResult(false, ms, 0));
      }
    case Written(i, ok, ms) =>
      if !ok {
        FinishKeepsValid(d, i, ConnResult(false, ms, 0));
      }
    case ReadSome(i, outcome, ms) =>
      if !outcome.Data? {
        FinishKeepsValid(d, i, ConnResult(outcome != OtherFailure, ms, d.conns[i].bytes));
      }
  }

  lemma {:induction false} RunKeepsValid(d: Driver, events: seq<Event>)
    requires d.concurrency > 0 && Valid(d) && IsRun(d, events)
    ensures Valid(After(d, events))
    ensures After(d, events).total == d.total && After(d, events).concurrency == d.concurrency
    decreases |events|
  {
    hide Valid, Enabled, Next;
    if events != [] {
      EventKeepsValid(d, events[0]);
      RunKeepsValid(Next(d, events[0]), events[1..]);
    }
  }

  /**
   * In every run of the driver: launched = in flight + done with one result per connection done,
   * the window never exceeds the concurrency nor the recorded peak, and stop has been called,
   * once, exactly if all the requests are in.
   */
  lemma DriverIsExact(total: nat, concurrency: nat, events: seq<Event>)
    requires total > 0 && concurrency > 0 && IsRun(Started(total, concurrency), events)
    ensures var d := After(Started(total, concurrency), events);
            && d.launched == d.inflight + d.done && |d.results| == d.done
            && d.inflight <= concurrency && d.inflight <= d.peak
            && d.peak == Started(total, concurrency).inflight
            && d.bytesReceived == Sum(d.results, OkBytes)
            && (d.stops == 1 <==> |d.results| == total) && d.stops <= 1
            && (d.stops == 1 ==> d.conns == [] && d.launched == total)
            && (d.stops == 0 ==> d.conns != [])
  {
    StartIsValid(total, concurrency);
    RunKeepsValid(Started(total, concurrency), events);
  }

  // ----- the results of a run, told by its events -----

  /** What the events so far say of a connection in flight. */
  datatype Tally = Tally(connected: bool, written: bool, bytes: nat)

  function Untouched(n: nat): (tallies: seq<Tally>)
    ensures |tallies| == n
  {
    seq(n, _ => Tally(false, false, 0))
  }

  predicate Finishes(e: Event) {
    match e
    case Connected(_, ok, _) => !ok
    case Written(_, ok, _) => !ok
    case ReadSome(_, outcome, _) => !outcome.Data?
  }

  /** The tallies after an event, without those of new connections. */
  function Noted(tallies: seq<Tally>, e: Event): (r: seq<Tally>)
    requires e.i < |tallies|
    ensures |r| == |tallies| - if Finishes(e) then 1 else 0
  {
    if Finishes(e) then Removed(tallies, e.i)
    else
      match e
      case Connected(i, _, _) => tallies[i := tallies[i].(connected := true)]
      case Written(i, _, _) => tallies[i := tallies[i].(written := true)]
      case ReadSome(i, outcome, _) => tallies[i := tallies[i].(bytes := tallies[i].bytes + outcome.n)]
  }

  /**
   * The result an event settles, if it settles one: a success after connecting and writing, if the
   * stream then ended or was reset, with the sum of all data read; else a failure.
   */
  function Settled(tallies: seq<Tally>, e: Event): seq<ConnResult>
    requires e.i < |tallies|
  {
    if !Finishes(e) then []
    else if e.ReadSome? then
      var t := tallies[e.i];
      [ConnResult(t.connected && t.written && (e.outcome == Eof || e.outcome == Reset), e.ms, t.bytes)]
    else [ConnResult(false, e.ms, 0)]
  }

  function TalliesAfter(d: Driver, tallies: seq<Tally>, e: Event): (r: seq<Tally>)
    requires Enabled(d, e) && |tallies| == |d.conns|
    ensures |r| == |Next(d, e).conns|
  {
    var noted := Noted(tallies, e);
    noted + Untouched(|Next(d, e).conns| - |noted|)
  }

  function ResultsTold(d: Driver, tallies: seq<Tally>, events: seq<Event>): seq<ConnResult>
    requires IsRun(d, events) && |tallies| == |d.conns|
    decreases |events|
  {
    if events == [] then []
    else
      Settled(tallies, events[0])
      + ResultsTold(Next(d, events[0]), TalliesAfter(d, tallies, events[0]), events[1..])
  }

  predicate Fits(phase: Phase, t: Tally) {
    t == match phase
         case Connecting => Tally(false, false, 0)
         case Writing => Tally(true, false, 0)
         case Reading(bytes) => Tally(true, true, bytes)
  }

  ghost predicate AllFit(d: Driver, tallies: seq<Tally>) {
    |tallies| == |d.conns| && forall i | 0 <= i < |tallies| :: Fits(d.conns[i], tallies[i])
  }

  /** Finishing removes one connection, adds its result, and opens connections at the end. */
  lemma FinishShape(d: Driver, i: nat, result: ConnResult)
    requires i < |d.conns| && d.inflight > 0
    ensures var next := Finish(d, i, result);
            && next.results == d.results + [result]
            && |d.conns| - 1 <= |next.conns|
            && next.conns[..|d.conns| - 1] == Removed(d.conns, i)
            && forall k | |d.conns| - 1 <= k < |next.conns| :: next.conns[k] == Connecting
  {
    hide WaveSize;
  }

  lemma FinishKeepsFit(d: Driver, tallies: seq<Tally>, i: nat, result: ConnResult)
    requires AllFit(d, tallies) && i < |d.conns| && d.inflight > 0
    ensures var next := Finish(d, i, result);
            && |d.conns| - 1 <= |next.conns|
            && AllFit(next, Removed(tallies, i) + Untouched(|next.conns| - (|d.conns| - 1)))
  {
    hide Finish;
    FinishShape(d, i, result);
    var next := Finish(d, i, result);
    forall k | 0 <= k < |d.conns| - 1
      ensures Fits(next.conns[k], Removed(tallies, i)[k])
    {
      assert next.conns[k] == next.conns[..|d.conns| - 1][k];
    }
  }

  lemma FinishingKeepsFit(d: Driver, tallies: seq<Tally>, e: Event)
    requires Enabled(d, e) && AllFit(d, tallies) && Finishes(e)
    ensures AllFit(Next(d, e), TalliesAfter(d, tallies, e))
    ensures Next(d, e).results == d.results + Settled(tallies, e)
  {
    FitAt(d, tallies, e.i);
    hide Finish, AllFit;
    var result := Settled(tallies, e)[0];
    assert Next(d, e) == Finish(d, e.i, result);
    FinishShape(d, e.i, result);
    FinishKeepsFit(d, tallies, e.i, result);
  }

  lemma FitAt(d: Driver, tallies: seq<Tally>, i: nat)
    requires AllFit(d, tallies) && i < |d.conns|
    ensures |tallies| == |d.conns| && Fits(d.conns[i], tallies[i])
  {}

  lemma EventKeepsFit(d: Driver, tallies: seq<Tally>, e: Event)
    requires Enabled(d, e) && AllFit(d, tallies)
    ensures AllFit(Next(d, e), TalliesAfter(d, tallies, e))
    ensures Next(d, e).results == d.results + Settled(tallies, e)
  {
    if Finishes(e) {
      FinishingKeepsFit(d, tallies, e);
    } else {
      FitAt(d, tallies, e.i);
      assert TalliesAfter(d, tallies, e) == Noted(tallies, e);
    }
  }

  lemma {:induction false} RunTellsResults(d: Driver, tallies: seq<Tally>, events: seq<Event>)
    requires IsRun(d, events) && AllFit(d, tallies)
    ensures After(d, events).results == d.results + ResultsTold(d, tallies, events)
    decreases |events|
  {
    hide Enabled, Next, Settled, TalliesAfter, Fits;
    if events != [] {
      EventKeepsFit(d, tallies, events[0]);
      RunTellsResults(Next(d, events[0]), TalliesAfter(d, tallies, events[0]), events[1..]);
    }
  }

  /** In every run of the driver the results are those that its events settle, in order. */
  lemma ResultsAreTold(total: nat, concurrency: nat, events: seq<Event>)
    requires IsRun(Started(total, concurrency), events)
    ensures var start := Started(total, concurrency);
            After(start, events).results == ResultsTold(start, Untouched(|start.conns|), events)
  {
    var start := Started(total, concurrency);
    RunTellsResults(start, Untouched(|start.conns|), events);
    assert [] + ResultsTold(start, Untouched(|start.conns|), events)
        == ResultsTold(start, Untouched(|start.conns|), events);
  }
}
