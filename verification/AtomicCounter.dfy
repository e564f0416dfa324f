/**
 * Threads racing on one connection counter (core/state/ServiceState.cpp): the atomic increment,
 * and the decrement that loads and then retries a weak compare-exchange. One event is one
 * access to the cell.
 */
module AtomicCounter {
  import opened Outcomes
  import opened ServicePools

  /** Where a thread stands in `DecrementConnections`. */
  datatype Thread = Idle | Entered | Looping(current: nat)

  datatype State = State(cell: nat, threads: seq<Thread>)

  datatype Event =
    | Increment(thread: nat)
    | Enter(thread: nat)
    | Load(thread: nat)
    | Exchange(thread: nat, spurious: bool)

  /** The loop test: with zero seen the call returns, otherwise it tries the exchange. */
  function AfterSeeing(value: nat): Thread {
    if value == 0 then Idle else Looping(value)
  }

  function Step(s: State, e: Event): Option<State> {
    if e.thread >= |s.threads| then None
    else
      match (e, s.threads[e.thread])
      case (Increment(t), Idle) => Some(s.(cell := s.cell + 1))
      case (Enter(t), Idle) => Some(s.(threads := s.threads[t := Entered]))
      case (Load(t), Entered) => Some(s.(threads := s.threads[t := AfterSeeing(s.cell)]))
      case (Exchange(t, spurious), Looping(current)) =>
        if !spurious && s.cell == current && current > 0
        then Some(State(current - 1, s.threads[t := Idle]))
        else Some(s.(threads := s.threads[t := AfterSeeing(s.cell)]))
      case _ => None
  }

  function Run(s: State, events: seq<Event>): Option<State>
    decreases |events|
  {
    if events == [] then Some(s)
    else
      match Step(s, events[0])
      case None => None
      case Some(next) => Run(next, events[1..])
  }

  // ----- the atomic counter it should look like -----

  /** A whole call, taking effect at one instant. */
  datatype Call = Incremented(thread: nat) | Decremented(thread: nat)

  function Apply(n: nat, call: Call): nat {
    if call.Incremented? then n + 1 else ServicePools.Decremented(n)
  }

  function Replay(n: nat, calls: seq<Call>): nat
    decreases |calls|
  {
    if calls == [] then n else Replay(Apply(n, calls[0]), calls[1..])
  }

  /** The call, if any, that takes effect with this event: the one access that decides it. */
  function Effect(s: State, e: Event): seq<Call>
    requires Step(s, e).Some?
  {
    if e.Increment? then [Incremented(e.thread)]
    else if !e.Enter? && Step(s, e).value.threads[e.thread] == Idle then [Decremented(e.thread)]
    else []
  }

  /** The calls of a run, in the order in which they take effect. */
  function Linearised(s: State, events: seq<Event>): seq<Call>
    requires Run(s, events).Some?
    decreases |events|
  {
    if events == [] then []
    else Effect(s, events[0]) + Linearised(Step(s, events[0]).value, events[1..])
  }

  /** A thread in the loop always has a positive value in hand. */
  ghost predicate Valid(s: State) {
    forall t | 0 <= t < |s.threads| :: s.threads[t].Looping? ==> s.threads[t].current > 0
  }

  /** Every interleaving leaves the cell as some order of atomic calls would. */
  lemma {:induction false} EveryRunLinearises(s: State, events: seq<Event>)
    requires Valid(s) && Run(s, events).Some?
    ensures Valid(Run(s, events).value)
    ensures Run(s, events).value.cell == Replay(s.cell, Linearised(s, events))
    decreases |events|
  {
    if events != [] {
      var next := Step(s, events[0]).value;
      EveryRunLinearises(next, events[1..]);
      var effect := Effect(s, events[0]);
      if effect == [] {
        assert effect + Linearised(next, events[1..]) == Linearised(next, events[1..]);
      } else {
        assert (effect + Linearised(next, events[1..]))[1..] == Linearised(next, events[1..]);
        assert next.cell == Apply(s.cell, effect[0]);
      }
    }
  }

  // ----- every call takes effect exactly once, between its invocation and its return -----

  function CountCalls(calls: seq<Call>, call: Call): nat {
    if calls == [] then 0 else (if calls[0] == call then 1 else 0) + CountCalls(calls[1..], call)
  }

  function CountEvents(events: seq<Event>, e: Event): nat {
    if events == [] then 0 else (if events[0] == e then 1 else 0) + CountEvents(events[1..], e)
  }

  /** 1 while the thread is inside a decrement. */
  function Inside(s: State, t: nat): nat {
    if t < |s.threads| && s.threads[t] != Idle then 1 else 0
  }

  lemma {:induction false} CountOfConcat(a: seq<Call>, b: seq<Call>, call: Call)
    ensures CountCalls(a + b, call) == CountCalls(a, call) + CountCalls(b, call)
  {
    if a == [] {
      assert a + b == b;
    } else {
      assert (a + b)[1..] == a[1..] + b;
      CountOfConcat(a[1..], b, call);
    }
  }

  lemma {:induction false} EachCallTakesEffectOnce(s: State, events: seq<Event>, t: nat)
    requires Run(s, events).Some?
    ensures CountCalls(Linearised(s, events), Incremented(t)) == CountEvents(events, Increment(t))
    ensures CountCalls(Linearised(s, events), Decremented(t)) + Inside(Run(s, events).value, t)
         == CountEvents(events, Enter(t)) + Inside(s, t)
    decreases |events|
  {
    if events != [] {
      var next := Step(s, events[0]).value;
      EachCallTakesEffectOnce(next, events[1..], t);
      var effect := Effect(s, events[0]);
      CountOfConcat(effect, Linearised(next, events[1..]), Incremented(t));
      CountOfConcat(effect, Linearised(next, events[1..]), Decremented(t));
      if effect != [] {
        assert effect[1..] == [];
      }
    }
  }

  // ----- conservation -----

  /** The events of a run that lowered the cell. */
  function Lowered(s: State, events: seq<Event>): nat
    requires Run(s, events).Some?
    decreases |events|
  {
    if events == [] then 0
    else
      var next := Step(s, events[0]).value;
      (if next.cell < s.cell then 1 else 0) + Lowered(next, events[1..])
  }

  function Raised(events: seq<Event>): nat {
    if events == [] then 0 else (if events[0].Increment? then 1 else 0) + Raised(events[1..])
  }

  /** No count is lost and none is taken twice; in particular the cell never underflows. */
  lemma {:induction false} Conservation(s: State, events: seq<Event>)
    requires Run(s, events).Some?
    ensures Run(s, events).value.cell + Lowered(s, events) == s.cell + Raised(events)
    decreases |events|
  {
    if events != [] {
      Conservation(Step(s, events[0]).value, events[1..]);
    }
  }

  /** A call returns without decrementing only by seeing zero in the cell at that very event. */
  lemma EmptyHandedOnlyAtZero(s: State, e: Event)
    requires Valid(s) && Step(s, e).Some? && Effect(s, e) == [Decremented(e.thread)]
    ensures Step(s, e).value.cell == s.cell <==> s.cell == 0
  {}

  /**
   * Lock freedom: an exchange that is not spurious fails only if, since the thread last looked,
   * some other thread's call has taken effect on the cell.
   */
  lemma {:induction false} FailedExchangeMeansProgress(s: State, others: seq<Event>, t: nat)
    requires t < |s.threads| && s.threads[t] == Looping(s.cell) && s.cell > 0
    requires Run(s, others).Some? && forall e | e in others :: e.thread != t
    ensures var end := Run(s, others).value;
            && Step(end, Exchange(t, false)).Some?
            && (Step(end, Exchange(t, false)).value.cell >= end.cell ==> Lowered(s, others) + Raised(others) > 0)
  {
    KeepsItsPlace(s, others, t);
    if Lowered(s, others) + Raised(others) == 0 {
      Conservation(s, others);
    }
  }

  lemma {:induction false} KeepsItsPlace(s: State, others: seq<Event>, t: nat)
    requires t < |s.threads| && Run(s, others).Some?
    requires forall e | e in others :: e.thread != t
    ensures |Run(s, others).value.threads| == |s.threads|
    ensures Run(s, others).value.threads[t] == s.threads[t]
    decreases |others|
  {
    if others != [] {
      KeepsItsPlace(Step(s, others[0]).value, others[1..], t);
    }
  }

  /** An idle thread may call either way at any time; an increment takes effect at once. */
  lemma IdleMayCall(s: State, t: nat)
    requires t < |s.threads| && s.threads[t] == Idle
    ensures Step(s, Increment(t)) == Some(s.(cell := s.cell + 1))
    ensures Step(s, Enter(t)) == Some(s.(threads := s.threads[t := Entered]))
  {}

  // ----- a call left alone ends -----

  predicate Calling(s: State, t: nat) {
    t < |s.threads| && s.threads[t] != Idle
  }

  /** The thread's next access sees, or it has just seen, what the cell holds. */
  predicate UpToDate(s: State, t: nat) {
    Calling(s, t) && (s.threads[t] == Entered || s.threads[t] == Looping(s.cell))
  }

  /** The thread's next access: it loads, or tries the exchange, which may fail spuriously. */
  function Access(s: State, t: nat, spurious: bool): Event
    requires Calling(s, t)
  {
    if s.threads[t] == Entered then Load(t) else Exchange(t, spurious)
  }

  /** The thread runs alone until its call returns; each exchange fails spuriously or not as `flags` say. */
  function Alone(s: State, t: nat, flags: seq<bool>): State
    decreases |flags|, if Calling(s, t) && s.threads[t] == Entered then 1 else 0
  {
    if !Calling(s, t) then s
    else if s.threads[t] == Entered then
      var next := s.(threads := s.threads[t := AfterSeeing(s.cell)]);
      Alone(next, t, flags)
    else if flags == [] then s
    else
      match Step(s, Exchange(t, flags[0]))
      case None => s
      case Some(next) => Alone(next, t, flags[1..])
  }

  /** An access that does not end the call brings the thread up to date. */
  lemma AccessBringsUpToDate(s: State, t: nat, spurious: bool)
    requires Valid(s) && Calling(s, t)
    ensures Step(s, Access(s, t, spurious)).Some?
    ensures var next := Step(s, Access(s, t, spurious)).value;
            && |next.threads| == |s.threads|
            && (forall u | 0 <= u < |s.threads| && u != t :: next.threads[u] == s.threads[u])
            && Valid(next)
            && (if Calling(next, t) then next.threads[t] == Looping(s.cell) && next.cell == s.cell > 0
                else next.cell == ServicePools.Decremented(s.cell))
  {}

  /** Up to date, an exchange that does not fail spuriously ends the call; a spurious failure keeps it so. */
  lemma UpToDateExchangeEnds(s: State, t: nat, spurious: bool)
    requires Valid(s) && t < |s.threads| && s.threads[t] == Looping(s.cell)
    ensures var next := Step(s, Exchange(t, spurious)).value;
            if spurious then next == s else next == State(s.cell - 1, s.threads[t := Idle])
  {}

  /** A thread behind the cell needs two good exchanges at most: one to catch up, one to succeed. */
  lemma TwoExchangesEnd(s: State, t: nat)
    requires Valid(s) && t < |s.threads| && s.threads[t].Looping?
    ensures var once := Step(s, Exchange(t, false)).value;
            var last := if Calling(once, t) then Step(once, Exchange(t, false)).value else once;
            && !Calling(last, t) && last.cell == if s.cell == 0 then 0 else s.cell - 1
  {
    AccessBringsUpToDate(s, t, false);
    var once := Step(s, Exchange(t, false)).value;
    if Calling(once, t) {
      UpToDateExchangeEnds(once, t, false);
    }
  }

  /** Some exchange does not fail spuriously, after the first if the thread is behind. */
  predicate SomeExchangeCounts(s: State, t: nat, flags: seq<bool>) {
    exists i | 0 <= i < |flags| :: !flags[i] && (i > 0 || UpToDate(s, t))
  }

  /**
   * From every state, a thread in the middle of a decrement that runs alone ends its call, with the
   * cell one lower, or still at zero, and no other thread moved: as soon as one exchange, after the
   * first if the thread was behind, does not fail spuriously.
   */
  lemma {:induction false} AloneEnds(s: State, t: nat, flags: seq<bool>)
    requires Valid(s) && Calling(s, t)
    requires SomeExchangeCounts(s, t, flags)
    ensures Alone(s, t, flags) == State(ServicePools.Decremented(s.cell), s.threads[t := Idle])
    decreases |flags|, if s.threads[t] == Entered then 1 else 0
  {
    if s.threads[t] == Entered {
      var next := Step(s, Load(t)).value;
      AccessBringsUpToDate(s, t, false);
      if Calling(next, t) {
        AloneEnds(next, t, flags);
      }
    } else {
      var next := Step(s, Exchange(t, flags[0])).value;
      AccessBringsUpToDate(s, t, flags[0]);
      if Calling(next, t) {
        if s.threads[t] == Looping(s.cell) {
          UpToDateExchangeEnds(s, t, flags[0]);
        }
        AloneEnds(next, t, flags[1..]);
      }
      assert next.threads[t := Idle] == s.threads[t := Idle];
    }
  }
}
