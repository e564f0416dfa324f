/** How the two timers guard a session until it shuts down, and what refreshes its idle deadline. */
module SessionDeadlines {
  import opened Sums
  import opened Asio
  import opened Sessions
  import opened SessionSafety
  import opened SessionLifetime

  // ----- deadlines -----

  function IsIdle(p: Pending): nat {
    if p.op == IdleTimer then 1 else 0
  }

  function IsArmedIdle(p: Pending): nat {
    if p.op == IdleTimer && p.status.Waiting? then 1 else 0
  }

  function IsConnect(p: Pending): nat {
    if p.op == Connect then 1 else 0
  }

  function IsRunningConnectTimer(p: Pending): nat {
    if p.op == ConnectTimer && p.status.Waiting? then 1 else 0
  }

  /** A timer that is running, or has run out and will shut the session down. */
  function IsDeadline(p: Pending): nat {
    if (p.op == ConnectTimer || p.op == IdleTimer) && (p.status.Waiting? || p.status.ec == Ok) then 1 else 0
  }

  /**
   * Until it shuts down, a session is guarded while connecting and, if it has an idle timeout, ever
   * after; one idle wait at most is running, and the connect timer runs only while connecting.
   */
  ghost predicate Guarded(s: Session) {
    && Sum(s.pending, IsArmedIdle) <= 1
    && (Sum(s.pending, IsRunningConnectTimer) > 0 ==> !s.shuttingDown && Sum(s.pending, IsConnect) > 0)
    && (!s.shuttingDown && (s.idleTimeoutMs > 0 || Sum(s.pending, IsConnect) > 0) ==> Sum(s.pending, IsDeadline) > 0)
  }

  /** The events that refresh the idle deadline. */
  predicate Rearms(s: Session, e: Event) {
    && e.Handles? && e.i < |s.pending| && s.idleTimeoutMs > 0
    && s.pending[e.i].status == Ready(Ok)
    && (s.pending[e.i].op == Connect || s.pending[e.i].op == Write(Up))
  }

  predicate HandlesIdle(s: Session, e: Event) {
    e.Handles? && e.i < |s.pending| && s.pending[e.i].op == IdleTimer
  }

  /** Cancelling some timers keeps the counts that do not concern them. */
  lemma CancelCounts(ps: seq<Pending>, ops: set<Op>)
    ensures Sum(Cancelled(ps, ops), IsIdle) == Sum(ps, IsIdle)
    ensures Sum(Cancelled(ps, ops), IsConnect) == Sum(ps, IsConnect)
    ensures Sum(Cancelled(ps, ops), IsArmedIdle) <= Sum(ps, IsArmedIdle)
    ensures IdleTimer in ops ==> Sum(Cancelled(ps, ops), IsArmedIdle) == 0
    ensures IdleTimer !in ops ==> Sum(Cancelled(ps, ops), IsArmedIdle) == Sum(ps, IsArmedIdle)
    ensures Sum(Cancelled(ps, ops), IsRunningConnectTimer) <= Sum(ps, IsRunningConnectTimer)
    ensures ConnectTimer in ops ==> Sum(Cancelled(ps, ops), IsRunningConnectTimer) == 0
  {
    var qs := Cancelled(ps, ops);
    SumMonotone(qs, ps, IsIdle);
    SumMonotone(ps, qs, IsIdle);
    SumMonotone(qs, ps, IsConnect);
    SumMonotone(ps, qs, IsConnect);
    SumMonotone(qs, ps, IsArmedIdle);
    SumMonotone(qs, ps, IsRunningConnectTimer);
    if ConnectTimer in ops {
      SumZero(qs, IsRunningConnectTimer);
    }
    if IdleTimer in ops {
      SumZero(qs, IsArmedIdle);
    } else {
      SumMonotone(ps, qs, IsArmedIdle);
    }
  }

  lemma StartCounts(ps: seq<Pending>, p: Pending)
    ensures Sum(ps + [p], IsIdle) == Sum(ps, IsIdle) + IsIdle(p)
    ensures Sum(ps + [p], IsArmedIdle) == Sum(ps, IsArmedIdle) + IsArmedIdle(p)
    ensures Sum(ps + [p], IsConnect) == Sum(ps, IsConnect) + IsConnect(p)
    ensures Sum(ps + [p], IsDeadline) == Sum(ps, IsDeadline) + IsDeadline(p)
    ensures Sum(ps + [p], IsRunningConnectTimer) == Sum(ps, IsRunningConnectTimer) + IsRunningConnectTimer(p)
  {
    SumAppend(ps, p, IsIdle);
    SumAppend(ps, p, IsArmedIdle);
    SumAppend(ps, p, IsConnect);
    SumAppend(ps, p, IsDeadline);
    SumAppend(ps, p, IsRunningConnectTimer);
  }

  lemma TakeCounts(ps: seq<Pending>, i: nat)
    requires i < |ps|
    ensures Sum(Removed(ps, i), IsIdle) == Sum(ps, IsIdle) - IsIdle(ps[i])
    ensures Sum(Removed(ps, i), IsArmedIdle) == Sum(ps, IsArmedIdle) - IsArmedIdle(ps[i])
    ensures Sum(Removed(ps, i), IsConnect) == Sum(ps, IsConnect) - IsConnect(ps[i])
    ensures Sum(Removed(ps, i), IsDeadline) == Sum(ps, IsDeadline) - IsDeadline(ps[i])
    ensures Sum(Removed(ps, i), IsRunningConnectTimer)
         == Sum(ps, IsRunningConnectTimer) - IsRunningConnectTimer(ps[i])
  {
    SumRemove(ps, i, IsIdle);
    SumRemove(ps, i, IsArmedIdle);
    SumRemove(ps, i, IsConnect);
    SumRemove(ps, i, IsDeadline);
    SumRemove(ps, i, IsRunningConnectTimer);
  }

  lemma UpdateCounts(ps: seq<Pending>, i: nat, p: Pending)
    requires i < |ps| && p.op == ps[i].op
    ensures Sum(ps[i := p], IsIdle) == Sum(ps, IsIdle)
    ensures Sum(ps[i := p], IsConnect) == Sum(ps, IsConnect)
    ensures Sum(ps[i := p], IsArmedIdle) == Sum(ps, IsArmedIdle) - IsArmedIdle(ps[i]) + IsArmedIdle(p)
    ensures Sum(ps[i := p], IsDeadline) == Sum(ps, IsDeadline) - IsDeadline(ps[i]) + IsDeadline(p)
    ensures Sum(ps[i := p], IsRunningConnectTimer)
         == Sum(ps, IsRunningConnectTimer) - IsRunningConnectTimer(ps[i]) + IsRunningConnectTimer(p)
  {
    SumUpdate(ps, i, p, IsIdle);
    SumUpdate(ps, i, p, IsConnect);
    SumUpdate(ps, i, p, IsArmedIdle);
    SumUpdate(ps, i, p, IsDeadline);
    SumUpdate(ps, i, p, IsRunningConnectTimer);
  }

  /** What a handler does to the counts: it arms the idle timer anew, or leaves it no more armed. */
  ghost predicate Moves(s: Session, t: Session, rearms: bool) {
    && t.idleTimeoutMs == s.idleTimeoutMs && t.backend == s.backend
    && Sum(t.pending, IsIdle) == Sum(s.pending, IsIdle) + (if rearms then 1 else 0)
    && Sum(t.pending, IsConnect) == Sum(s.pending, IsConnect)
    && Sum(t.pending, IsRunningConnectTimer) <= Sum(s.pending, IsRunningConnectTimer)
    && (if rearms then Sum(t.pending, IsArmedIdle) == 1 && Sum(t.pending, IsDeadline) > 0
        else Sum(t.pending, IsArmedIdle) <= Sum(s.pending, IsArmedIdle))
  }

  /** A handler that neither shuts down nor rearms leaves the deadlines alone. */
  ghost predicate KeepsDeadlines(s: Session, t: Session) {
    t.shuttingDown || (!s.shuttingDown && Sum(t.pending, IsDeadline) == Sum(s.pending, IsDeadline))
  }

  lemma StartMoves(s: Session, op: Op, size: nat)
    requires op.Read? || op.Write?
    ensures Moves(s, s.Starting(op, size), false) && KeepsDeadlines(s, s.Starting(op, size))
    ensures Sum(s.Starting(op, size).pending, IsArmedIdle) == Sum(s.pending, IsArmedIdle)
    ensures Sum(s.Starting(op, size).pending, IsDeadline) == Sum(s.pending, IsDeadline)
  {
    StartCounts(s.pending, Pending(op, Started(s.Open(op)), size, 0));
  }

  lemma ArmMoves(s: Session)
    requires s.idleTimeoutMs > 0
    ensures Moves(s, ArmIdle(s), true)
  {
    CancelCounts(s.pending, {IdleTimer});
    StartCounts(Cancelled(s.pending, {IdleTimer}), Pending(IdleTimer, Waiting, 0, 0));
  }

  lemma ReadMoves(s: Session, d: Direction)
    ensures Moves(s, ReadFrom(s, d), d == Up && s.idleTimeoutMs > 0)
    ensures ReadFrom(s, d).shuttingDown == s.shuttingDown
    ensures !(d == Up && s.idleTimeoutMs > 0) ==>
              KeepsDeadlines(s, ReadFrom(s, d))
              && Sum(ReadFrom(s, d).pending, IsArmedIdle) == Sum(s.pending, IsArmedIdle)
    ensures Sum(s.pending, IsDeadline) > 0 && d == Down ==> Sum(ReadFrom(s, d).pending, IsDeadline) > 0
  {
    hide Moves;
    if d == Up && s.idleTimeoutMs > 0 {
      ArmMoves(s);
      StartMoves(ArmIdle(s), Read(d), 0);
      ThenMoves(s, ArmIdle(s), ReadFrom(s, d));
    } else {
      StartMoves(s, Read(d), 0);
    }
  }

  lemma ThenMoves(s: Session, t: Session, u: Session)
    requires Moves(s, t, true) && Moves(t, u, false)
    requires Sum(u.pending, IsArmedIdle) == Sum(t.pending, IsArmedIdle)
    requires Sum(u.pending, IsDeadline) == Sum(t.pending, IsDeadline)
    ensures Moves(s, u, true)
  {}

  lemma ShutdownMoves(s: Session)
    ensures Moves(s, Shutdown(s), false) && KeepsDeadlines(s, Shutdown(s)) && Shutdown(s).shuttingDown
    ensures !s.shuttingDown ==> Sum(Shutdown(s).pending, IsRunningConnectTimer) == 0
  {
    CancelCounts(s.pending, TIMER_OPS + CLIENT_OPS + BACKEND_OPS);
  }

  lemma ConnectMoves(s: Session, ec: Ec)
    ensures Moves(s, OnConnected(s, ec), ec == Ok && s.idleTimeoutMs > 0)
    ensures ec != Ok ==> OnConnected(s, ec).shuttingDown
    ensures Sum(OnConnected(s, ec).pending, IsRunningConnectTimer) == 0
  {
    var t := s.Cancelling({ConnectTimer});
    CancelCounts(s.pending, {ConnectTimer});
    assert Moves(s, t, false);
    if ec != Ok {
      ShutdownMoves(t);
    } else {
      ReadMoves(t, Up);
      ReadMoves(ReadFromClient(t), Down);
    }
  }

  /** Every handler, run on the session with its own operation taken off. */
  lemma HandlerMoves(rest: Session, p: Pending)
    requires p.status.Ready?
    ensures Moves(rest, Handle(rest, p),
                  p.status.ec == Ok && rest.idleTimeoutMs > 0 && (p.op == Connect || p.op == Write(Up)))
    ensures p.op != Connect && !(p.status.ec == Ok && rest.idleTimeoutMs > 0 && p.op == Write(Up)) ==>
              p.op == ConnectTimer || p.op == IdleTimer || KeepsDeadlines(rest, Handle(rest, p))
    ensures IsDeadline(p) > 0 || (p.op == Connect && p.status.ec != Ok) ==> Handle(rest, p).shuttingDown
    ensures p.op == Connect || (Handle(rest, p).shuttingDown && !rest.shuttingDown) ==>
              Sum(Handle(rest, p).pending, IsRunningConnectTimer) == 0
    ensures IsDeadline(p) == 0 && (p.op == ConnectTimer || p.op == IdleTimer) ==> Handle(rest, p) == rest
  {
    hide Moves, KeepsDeadlines, ReadFrom, Shutdown;
    ShutdownMoves(rest);
    match p.op
    case Connect => ConnectMoves(rest, p.status.ec);
    case Read(d) => StartMoves(rest, Write(d), p.size);
    case Write(d) => ReadMoves(rest, d);
    case _ => StaysPut(rest);
  }

  lemma StaysPut(s: Session)
    ensures Moves(s, s, false)
  {}

  /**
   * An idle wait is started by exactly the events that rearm: the connect, and each chunk fully
   * written to the backend. In particular nothing the backend sends refreshes the deadline.
   */
  lemma OnlyClientTrafficRefreshesIdle(s: Session, e: Event)
    requires Step(s, e).Some?
    ensures Sum(Step(s, e).value.pending, IsIdle) + (if HandlesIdle(s, e) then 1 else 0)
         == Sum(s.pending, IsIdle) + (if Rearms(s, e) then 1 else 0)
  {
    hide Handle;
    var t := Step(s, e).value;
    match e
    case Completes(i, ok, data) => UpdateCounts(s.pending, i, t.pending[i]);
    case Transmits(i, n) => UpdateCounts(s.pending, i, t.pending[i]);
    case Handles(i) =>
      TakeCounts(s.pending, i);
      HandlerMoves(s.(pending := Removed(s.pending, i)), s.pending[i]);
  }

  /** How many events of a run rearm the idle timer. */
  function Rearmings(s: Session, events: seq<Event>): nat
    requires Run(s, events).Some?
    decreases |events|
  {
    if events == [] then 0
    else (if Rearms(s, events[0]) then 1 else 0) + Rearmings(Step(s, events[0]).value, events[1..])
  }

  /** How many idle waits have had their handlers run. */
  function IdleHandled(s: Session, events: seq<Event>): nat
    requires Run(s, events).Some?
    decreases |events|
  {
    if events == [] then 0
    else (if HandlesIdle(s, events[0]) then 1 else 0) + IdleHandled(Step(s, events[0]).value, events[1..])
  }

  /** Over any run, the idle waits there were and those started are those handled and those left. */
  lemma {:induction false} IdleWaitsAccountedFor(s: Session, events: seq<Event>)
    requires Run(s, events).Some?
    ensures Sum(Run(s, events).value.pending, IsIdle) + IdleHandled(s, events)
         == Sum(s.pending, IsIdle) + Rearmings(s, events)
    decreases |events|
  {
    hide Step, Rearms, HandlesIdle;
    if events != [] {
      OnlyClientTrafficRefreshesIdle(s, events[0]);
      IdleWaitsAccountedFor(Step(s, events[0]).value, events[1..]);
    }
  }

  lemma OneConnectAtMost(s: Session)
    requires Valid(s)
    ensures Sum(s.pending, IsConnect) <= 1
  {
    SumDominated(s.pending, IsConnect, UsesDirection(Up));
  }

  lemma CompletionKeepsGuarded(s: Session, e: Event)
    requires Guarded(s) && Step(s, e).Some? && !e.Handles?
    ensures Guarded(Step(s, e).value)
  {
    var t := Step(s, e).value;
    CompletionChanges(s, e);
    UpdateCounts(s.pending, e.i, t.pending[e.i]);
    hide Step;
  }

  /** A completion changes the status of one operation; a timer completes by running out. */
  lemma CompletionChanges(s: Session, e: Event)
    requires Step(s, e).Some? && !e.Handles?
    ensures var t := Step(s, e).value;
            && t.shuttingDown == s.shuttingDown && t.idleTimeoutMs == s.idleTimeoutMs
            && |t.pending| == |s.pending| && e.i < |s.pending|
            && var p, q := s.pending[e.i], t.pending[e.i];
               && t.pending == s.pending[e.i := q] && q.op == p.op && p.status.Waiting?
               && (p.op == ConnectTimer || p.op == IdleTimer ==> q.status == Ready(Ok))
  {}

  lemma HandlerKeepsGuarded(s: Session, i: nat)
    requires Valid(s) && Guarded(s) && i < |s.pending| && s.pending[i].status.Ready?
    ensures Guarded(RunHandler(s, i).value)
  {
    hide Handle;
    var p, rest := s.pending[i], s.(pending := Removed(s.pending, i));
    TakeCounts(s.pending, i);
    HandlerMoves(rest, p);
    OneConnectAtMost(s);
    var t := Handle(rest, p);
    assert Sum(t.pending, IsArmedIdle) <= 1;
    if !t.shuttingDown {
      match p.op
      case Connect => assert s.idleTimeoutMs > 0 ==> Sum(t.pending, IsDeadline) > 0;
      case ConnectTimer => assert t == rest;
      case IdleTimer => assert t == rest;
      case Read(d) => assert KeepsDeadlines(rest, t);
      case Write(d) => assert KeepsDeadlines(rest, t) || Sum(t.pending, IsDeadline) > 0;
    }
  }

  lemma {:induction false} RunKeepsGuarded(s: Session, events: seq<Event>)
    requires Valid(s) && Guarded(s) && Run(s, events).Some?
    ensures Guarded(Run(s, events).value)
    decreases |events|
  {
    hide Guarded;
    if events != [] {
      var e := events[0];
      StepKeepsValid(s, e);
      if e.Handles? {
        HandlerKeepsGuarded(s, e.i);
      } else {
        CompletionKeepsGuarded(s, e);
      }
      RunKeepsGuarded(Step(s, e).value, events[1..]);
    }
  }

  lemma StartIsGuarded(backend: nat, idleTimeoutMs: nat)
    ensures Guarded(StartedSession(backend, idleTimeoutMs))
  {
    var a, b := Pending(ConnectTimer, Waiting, 0, 0), Pending(Connect, Waiting, 0, 0);
    StartCounts([], a);
    StartCounts([a], b);
    assert [] + [a] == [a] && [a] + [b] == StartedSession(backend, idleTimeoutMs).pending;
  }

  /**
   * No session hangs: in every run, until it shuts down, a session that is connecting or has an
   * idle timeout needs nobody's help to end, for its deadline runs out and shuts it down.
   */
  lemma DeadlineEndsSession(backend: nat, idleTimeoutMs: nat, events: seq<Event>) returns (i: nat, timeout: seq<Event>)
    requires Run(StartedSession(backend, idleTimeoutMs), events).Some?
    requires var s := Run(StartedSession(backend, idleTimeoutMs), events).value;
             !s.shuttingDown && (idleTimeoutMs > 0 || Sum(s.pending, IsConnect) > 0)
    ensures var s := Run(StartedSession(backend, idleTimeoutMs), events).value;
            && i < |s.pending| && (s.pending[i].op == ConnectTimer || s.pending[i].op == IdleTimer)
            && (timeout == [Completes(i, true, []), Handles(i)] || timeout == [Handles(i)])
            && Run(s, timeout).Some? && Run(s, timeout).value.shuttingDown
  {
    var start := StartedSession(backend, idleTimeoutMs);
    var s := Run(start, events).value;
    StartIsValid(backend, idleTimeoutMs);
    StartIsGuarded(backend, idleTimeoutMs);
    RunKeepsGuarded(start, events);
    TimeoutIsConstant(start, events);
    SumZero(s.pending, IsDeadline);
    i :| 0 <= i < |s.pending| && IsDeadline(s.pending[i]) > 0;
    if s.pending[i].status.Waiting? {
      var fire := Completes(i, true, []);
      var fired := Step(s, fire).value;
      RunOne(s, fire);
      RunOne(fired, Handles(i));
      RunConcat(s, [fire], [Handles(i)]);
      timeout := [fire] + [Handles(i)];
    } else {
      RunOne(s, Handles(i));
      timeout := [Handles(i)];
    }
  }

  lemma StepKeepsConfiguration(s: Session, e: Event)
    requires Step(s, e).Some?
    ensures Step(s, e).value.idleTimeoutMs == s.idleTimeoutMs && Step(s, e).value.backend == s.backend
  {
    hide Handle;
    if e.Handles? {
      HandlerMoves(s.(pending := Removed(s.pending, e.i)), s.pending[e.i]);
    }
  }

  lemma {:induction false} TimeoutIsConstant(s: Session, events: seq<Event>)
    requires Run(s, events).Some?
    ensures Run(s, events).value.idleTimeoutMs == s.idleTimeoutMs
    decreases |events|
  {
    hide Step;
    if events != [] {
      StepKeepsConfiguration(s, events[0]);
      TimeoutIsConstant(Step(s, events[0]).value, events[1..]);
    }
  }
}
