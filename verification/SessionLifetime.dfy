/**
 * How a session ends: once shut down it drains whatever the order of its handlers, and it can
 * always be brought to an end.
 */
module SessionLifetime {
  import opened Sums
  import opened Asio
  import opened Sessions
  import opened SessionSafety

  // ----- draining -----

  /**
   * A bound on the events an operation can still cause after shutdown. A queued success counts
   * for the operations its handler starts on the closed sockets, and for the idle timer it arms.
   */
  function Weight(p: Pending): nat {
    match p.op
    case ConnectTimer => if p.status.Waiting? then 2 else 1
    case IdleTimer => if p.status.Waiting? then 2 else 1
    case Connect => if p.status.Waiting? then 6 else if p.status.ec == Ok then 5 else 1
    case Read(_) => if p.status.Waiting? then 3 else if p.status.ec == Ok then 2 else 1
    case Write(_) => if p.status.Waiting? then 5 else if p.status.ec == Ok then 4 else 1
  }

  function WorkLeft(s: Session): nat {
    Sum(s.pending, Weight)
  }

  lemma CancelAddsNoWork(s: Session, ops: set<Op>)
    ensures WorkLeft(s.Cancelling(ops)) <= WorkLeft(s)
  {
    SumMonotone(Cancelled(s.pending, ops), s.pending, Weight);
  }

  lemma StartAddsItsWeight(s: Session, op: Op, size: nat)
    ensures WorkLeft(s.Starting(op, size)) == WorkLeft(s) + Weight(Pending(op, Started(s.Open(op)), size, 0))
  {
    SumAppend(s.pending, Pending(op, Started(s.Open(op)), size, 0), Weight);
  }

  /** Restarted after shutdown, a read fails at once; from the client side it may arm the idle timer. */
  lemma LateReadAddsLittle(s: Session, d: Direction)
    requires !s.clientOpen && !s.backendOpen
    ensures WorkLeft(ReadFrom(s, d)) <= WorkLeft(s) + if d == Up then 3 else 1
  {
    if d == Up && s.idleTimeoutMs > 0 {
      CancelAddsNoWork(s, {IdleTimer});
      StartAddsItsWeight(s.Cancelling({IdleTimer}), IdleTimer, 0);
    }
    StartAddsItsWeight(if d == Up then ArmIdle(s) else s, Read(d), 0);
  }

  /** After shutdown every event, whichever comes next, uses up work, and shutdown is for good. */
  lemma EveryEventUsesWork(s: Session, e: Event)
    requires Valid(s) && s.shuttingDown && Step(s, e).Some?
    ensures Step(s, e).value.shuttingDown
    ensures WorkLeft(Step(s, e).value) < WorkLeft(s)
  {
    var t := Step(s, e).value;
    match e
    case Completes(i, ok, data) => SumUpdate(s.pending, i, t.pending[i], Weight);
    case Transmits(i, n) =>
    case Handles(i) =>
      var p, rest := s.pending[i], s.(pending := Removed(s.pending, i));
      SumRemove(s.pending, i, Weight);
      if p.status.ec == Ok {
        match p.op
        case Connect =>
          var u := rest.Cancelling({ConnectTimer});
          CancelAddsNoWork(rest, {ConnectTimer});
          LateReadAddsLittle(u, Up);
          LateReadAddsLittle(ReadFromClient(u), Down);
        case Read(d) => StartAddsItsWeight(rest, Write(d), p.size);
        case Write(d) => LateReadAddsLittle(rest, d);
        case _ =>
      } else if p.op == Connect {
        CancelAddsNoWork(rest, {ConnectTimer});
      }
  }

  // ----- the sessions that need never end -----

  /** A socket operation that may still succeed, or has succeeded. */
  predicate Promising(p: Pending) {
    (p.op.Connect? || p.op.Read? || p.op.Write?) && (p.status.Waiting? || p.status.ec == Ok)
  }

  /** Not shut down, and not yet doomed by failures alone. */
  ghost predicate Live(s: Session) {
    !s.shuttingDown && exists i | 0 <= i < |s.pending| :: Promising(s.pending[i])
  }

  /** An event that carries a promising operation on. */
  function Onward(s: Session, i: nat): Event
    requires i < |s.pending|
  {
    var p := s.pending[i];
    if p.status.Ready? then Handles(i)
    else if p.op.Write? && p.sent < p.size then Transmits(i, 1)
    else Completes(i, true, [0])
  }

  lemma OnwardWaiting(s: Session, i: nat)
    requires Valid(s) && !s.shuttingDown && i < |s.pending|
    requires Promising(s.pending[i]) && s.pending[i].status.Waiting?
    ensures Step(s, Onward(s, i)).Some? && Live(Step(s, Onward(s, i)).value)
  {
    var p := s.pending[i];
    if p.op.Write? {
      assert FlowValid(s.Flow(p.op.d), s.pending, p.op.d) by {
        assert p.op.d == Up || p.op.d == Down;
      }
      assert InStep(s.Flow(p.op.d), p, p.op.d);
    }
    assert Promising(Step(s, Onward(s, i)).value.pending[i]);
  }

  lemma OnwardHandler(s: Session, i: nat)
    requires Valid(s) && !s.shuttingDown && i < |s.pending|
    requires Promising(s.pending[i]) && s.pending[i].status.Ready?
    ensures Step(s, Onward(s, i)).Some? && Live(Step(s, Onward(s, i)).value)
  {
    var ps := Step(s, Onward(s, i)).value.pending;
    assert Promising(ps[|ps| - 1]);
  }

  lemma NotLiveWhenShut(s: Session)
    requires s.shuttingDown
    ensures !Live(s)
  {}

  lemma ShutdownAddsNoWork(s: Session)
    ensures WorkLeft(Shutdown(s)) <= WorkLeft(s)
  {
    CancelAddsNoWork(s, TIMER_OPS + CLIENT_OPS + BACKEND_OPS);
  }

  lemma DoomedHandlerAddsNoWork(rest: Session, p: Pending)
    requires p.status.Ready? && !Promising(p)
    ensures WorkLeft(Handle(rest, p)) <= WorkLeft(rest)
    ensures Handle(rest, p).shuttingDown || Handle(rest, p) == rest
  {
    hide Shutdown;
    ShutdownAddsNoWork(rest);
    assert Shutdown(rest).shuttingDown && Shutdown(rest.Cancelling({ConnectTimer})).shuttingDown by {
      ShutsDown(rest);
      ShutsDown(rest.Cancelling({ConnectTimer}));
    }
    CancelAddsNoWork(rest, {ConnectTimer});
    ShutdownAddsNoWork(rest.Cancelling({ConnectTimer}));
  }

  lemma ShutsDown(s: Session)
    ensures Shutdown(s).shuttingDown
  {}

  /** A doomed session shuts down with the next socket handler or timer, and loses work meanwhile. */
  lemma DoomedEventUsesWork(s: Session, e: Event)
    requires !s.shuttingDown && !Live(s) && Step(s, e).Some?
    ensures !Live(Step(s, e).value)
    ensures WorkLeft(Step(s, e).value) < WorkLeft(s)
  {
    var t := Step(s, e).value;
    match e
    case Completes(i, ok, data) => SumUpdate(s.pending, i, t.pending[i], Weight);
    case Transmits(i, n) => assert false;
    case Handles(i) =>
      assert !Promising(s.pending[i]);
      hide Handle;
      SumRemove(s.pending, i, Weight);
      DoomedHandlerAddsNoWork(s.(pending := Removed(s.pending, i)), s.pending[i]);
  }

  lemma DeadEventUsesWork(s: Session, e: Event)
    requires Valid(s) && !Live(s) && Step(s, e).Some?
    ensures !Live(Step(s, e).value)
    ensures WorkLeft(Step(s, e).value) < WorkLeft(s)
  {
    hide Step, Valid, Live, WorkLeft;
    if s.shuttingDown {
      EveryEventUsesWork(s, e);
      NotLiveWhenShut(Step(s, e).value);
    } else {
      DoomedEventUsesWork(s, e);
    }
  }

  /** So every run of a session that is not live is finite, under any order of completions and handlers. */
  lemma {:induction false} DrainsInBoundedTime(s: Session, events: seq<Event>)
    requires Valid(s) && !Live(s) && Run(s, events).Some?
    ensures |events| + WorkLeft(Run(s, events).value) <= WorkLeft(s)
    decreases |events|
  {
    hide Step, Valid, Live, WorkLeft;
    if events != [] {
      StepKeepsValid(s, events[0]);
      DeadEventUsesWork(s, events[0]);
      DrainsInBoundedTime(Step(s, events[0]).value, events[1..]);
    }
  }

  /** A live session has an event that keeps it live. */
  lemma LiveEvent(s: Session) returns (e: Event)
    requires Valid(s) && Live(s)
    ensures Step(s, e).Some? && Live(Step(s, e).value)
  {
    var i :| 0 <= i < |s.pending| && Promising(s.pending[i]);
    hide Step, Valid, Live;
    if s.pending[i].status.Waiting? {
      OnwardWaiting(s, i);
    } else {
      OnwardHandler(s, i);
    }
    e := Onward(s, i);
  }

  lemma {:induction false} LiveRun(s: Session, n: nat) returns (events: seq<Event>)
    requires Valid(s) && Live(s)
    ensures |events| == n && Run(s, events).Some? && Live(Run(s, events).value)
    decreases n
  {
    hide Step, Valid, Live;
    if n == 0 {
      return [];
    }
    var e := LiveEvent(s);
    StepKeepsValid(s, e);
    var rest := LiveRun(Step(s, e).value, n - 1);
    RunOne(s, e);
    RunConcat(s, [e], rest);
    events := [e] + rest;
  }

  ghost predicate NoRunLonger(s: Session, n: nat) {
    forall events | Run(s, events).Some? :: |events| <= n
  }

  /** The runs of a session are bounded exactly if it is not live. */
  lemma BoundedExactlyIfNotLive(s: Session)
    requires Valid(s)
    ensures (exists n: nat :: NoRunLonger(s, n)) <==> !Live(s)
  {
    hide Valid, Live, WorkLeft;
    if Live(s) {
      forall n: nat
        ensures !NoRunLonger(s, n)
      {
        var events := LiveRun(s, n + 1);
      }
    } else {
      forall events | Run(s, events).Some?
        ensures |events| <= WorkLeft(s)
      {
        DrainsInBoundedTime(s, events);
      }
      assert NoRunLonger(s, WorkLeft(s));
    }
  }

  // ----- never stuck, always endable -----

  /** An event for the first pending operation: run its handler, fire its timer, or fail it. */
  function Nudge(s: Session): Event
    requires s.pending != []
  {
    var p := s.pending[0];
    if p.status.Ready? then Handles(0)
    else Completes(0, p.op == ConnectTimer || p.op == IdleTimer, [])
  }

  /** While anything is pending, some event is enabled. */
  lemma NeverStuck(s: Session)
    requires s.pending != []
    ensures Step(s, Nudge(s)).Some?
  {}

  lemma {:induction false} RunConcat(s: Session, a: seq<Event>, b: seq<Event>)
    requires Run(s, a).Some?
    ensures Run(s, a + b) == Run(Run(s, a).value, b)
    decreases |a|
  {
    if a == [] {
      assert a + b == b;
    } else {
      assert (a + b)[1..] == a[1..] + b && (a + b)[0] == a[0];
      RunConcat(Step(s, a[0]).value, a[1..], b);
    }
  }

  lemma RunOne(s: Session, e: Event)
    requires Step(s, e).Some?
    ensures Run(s, [e]) == Step(s, e)
  {
    assert [e][1..] == [];
  }

  lemma RunCons(s: Session, e: Event, rest: seq<Event>)
    requires Step(s, e).Some?
    ensures Run(s, [e] + rest) == Run(Step(s, e).value, rest)
  {
    RunOne(s, e);
    RunConcat(s, [e], rest);
  }

  /** A session that has shut down can run to its end, where nothing holds it any longer. */
  lemma RunToEnd(s: Session) returns (events: seq<Event>)
    requires Valid(s) && s.shuttingDown
    ensures Run(s, events).Some? && Run(s, events).value.pending == []
    decreases WorkLeft(s)
  {
    if s.pending == [] {
      return [];
    }
    NeverStuck(s);
    var e := Nudge(s);
    StepKeepsValid(s, e);
    EveryEventUsesWork(s, e);
    var rest := RunToEnd(Step(s, e).value);
    RunOne(s, e);
    RunConcat(s, [e], rest);
    events := [e] + rest;
  }

  /** A socket operation that waits may fail, and then its handler shuts the session down. */
  lemma FailShutsDown(s: Session, i: nat) returns (events: seq<Event>)
    requires Valid(s) && i < |s.pending| && s.pending[i].status.Waiting?
    requires s.pending[i].op.Read? || s.pending[i].op.Write? || s.pending[i].op.Connect?
    ensures Run(s, events).Some? && Run(s, events).value.shuttingDown
  {
    var fail := Completes(i, false, []);
    var failed := Step(s, fail).value;
    RunOne(s, fail);
    RunOne(failed, Handles(i));
    RunConcat(s, [fail], [Handles(i)]);
    events := [fail] + [Handles(i)];
  }

  /** A socket handler that does not shut down leaves a read or write of its own waiting. */
  lemma HandlerLeavesWaiting(s: Session, i: nat)
    requires Valid(s) && i < |s.pending| && s.pending[i].status.Ready? && Uses(s.pending[i].op, Up)
    requires !RunHandler(s, i).value.shuttingDown
    ensures var ps := RunHandler(s, i).value.pending;
            ps != [] && ps[|ps| - 1].status.Waiting? && (ps[|ps| - 1].op.Read? || ps[|ps| - 1].op.Write?)
  {}

  /** From every state some run shuts the session down. */
  lemma RunToShutdown(s: Session) returns (events: seq<Event>)
    requires Valid(s)
    ensures Run(s, events).Some? && Run(s, events).value.shuttingDown
  {
    if s.shuttingDown {
      return [];
    }
    SumZero(s.pending, UsesDirection(Up));
    var i :| 0 <= i < |s.pending| && Uses(s.pending[i].op, Up);
    hide Valid, Handle;
    if s.pending[i].status.Waiting? {
      events := FailShutsDown(s, i);
    } else {
      var next := Step(s, Handles(i)).value;
      RunOne(s, Handles(i));
      if next.shuttingDown {
        return [Handles(i)];
      }
      HandlerKeepsValid(s, i);
      HandlerLeavesWaiting(s, i);
      var rest := FailShutsDown(next, |next.pending| - 1);
      RunConcat(s, [Handles(i)], rest);
      events := [Handles(i)] + rest;
    }
  }

  /** Hence from every state some run ends the session. */
  lemma CanAlwaysEnd(s: Session) returns (events: seq<Event>)
    requires Valid(s)
    ensures Run(s, events).Some? && Run(s, events).value.pending == []
    ensures Run(s, events).value.shuttingDown
  {
    var first := RunToShutdown(s);
    RunKeepsValid(s, first);
    var rest := RunToEnd(Run(s, first).value);
    RunConcat(s, first, rest);
    events := first + rest;
    RunKeepsValid(s, events);
    DestroyedOnlyAfterShutdown(Run(s, events).value);
  }
}
