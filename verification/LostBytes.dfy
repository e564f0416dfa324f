/** Which bytes a session reads and never passes on: those left over when a write of theirs fails. */
module LostBytes {
  import opened Words
  import opened Sums
  import opened Asio
  import opened Sessions
  import opened SessionSafety
  import opened SessionLifetime
  import opened Downloads

  /** The event that gives up on a write of this direction. */
  predicate GivesUp(s: Session, e: Event, d: Direction) {
    && e.Handles? && e.i < |s.pending| && s.pending[e.i].op == Write(d)
    && s.pending[e.i].status.Ready? && s.pending[e.i].status.ec != Ok
  }

  /** What that write had left to send. */
  function LeftOver(s: Session, e: Event, d: Direction): seq<Byte> {
    if GivesUp(s, e, d) && s.pending[e.i].sent <= s.pending[e.i].size <= |s.Flow(d).buf|
    then s.Flow(d).buf[s.pending[e.i].sent..s.pending[e.i].size]
    else []
  }

  function Lost(s: Session, events: seq<Event>, d: Direction): seq<Byte>
    requires Run(s, events).Some?
    decreases |events|
  {
    if events == [] then []
    else LeftOver(s, events[0], d) + Lost(Step(s, events[0]).value, events[1..], d)
  }

  /** Some write of the direction is given up with bytes left. */
  predicate SomeWriteFailsShort(s: Session, events: seq<Event>, d: Direction)
    requires Run(s, events).Some?
    decreases |events|
  {
    events != []
    && ((GivesUp(s, events[0], d) && s.pending[events[0].i].sent < s.pending[events[0].i].size)
        || SomeWriteFailsShort(Step(s, events[0]).value, events[1..], d))
  }

  /** While the direction is busy nothing has been lost; once it is idle, `lost` is all that is missing. */
  ghost predicate Accounted(s: Session, d: Direction, lost: seq<Byte>) {
    if Load(s, d) == 0 then s.Flow(d).taken == s.Flow(d).given + lost else lost == []
  }

  lemma ReadLoads(s: Session, e: Direction, d: Direction)
    ensures Load(ReadFrom(s, e), d) == Load(s, d) + if e == d then 1 else 0
  {
    var t := if e == Up then ArmIdle(s) else s;
    if e == Up && s.idleTimeoutMs > 0 {
      CancelKeepsSums(s.pending, {IdleTimer}, d);
      SumAppend(Cancelled(s.pending, {IdleTimer}), Pending(IdleTimer, Waiting, 0, 0), UsesDirection(d));
    }
    SumAppend(t.pending, Pending(Read(e), Started(t.Open(Read(e))), 0, 0), UsesDirection(d));
  }

  lemma ShutdownLoads(s: Session, d: Direction)
    ensures Load(Shutdown(s), d) == Load(s, d)
  {
    CancelKeepsSums(s.pending, TIMER_OPS + CLIENT_OPS + BACKEND_OPS, d);
  }

  lemma ConnectedLoads(s: Session, ec: Ec, d: Direction)
    ensures Load(OnConnected(s, ec), d) == Load(s, d) + if ec == Ok then 1 else 0
    ensures OnConnected(s, ec).Flow(d) == s.Flow(d)
  {
    var t := s.Cancelling({ConnectTimer});
    CancelKeepsSums(s.pending, {ConnectTimer}, d);
    if ec != Ok {
      ShutdownLoads(t, d);
    } else {
      ReadLoads(t, Up, d);
      ReadLoads(ReadFromClient(t), Down, d);
    }
  }

  lemma ReadDoneLoads(s: Session, e: Direction, ec: Ec, bytes: nat, d: Direction)
    ensures Load(OnRead(s, e, ec, bytes), d) == Load(s, d) + if ec == Ok && e == d then 1 else 0
    ensures OnRead(s, e, ec, bytes).Flow(d) == s.Flow(d)
  {
    ShutdownLoads(s, d);
    SumAppend(s.pending, Pending(Write(e), Started(s.Open(Write(e))), bytes, 0), UsesDirection(d));
  }

  lemma WriteDoneLoads(s: Session, e: Direction, ec: Ec, d: Direction)
    ensures Load(OnWritten(s, e, ec), d) == Load(s, d) + if ec == Ok && e == d then 1 else 0
    ensures OnWritten(s, e, ec).Flow(d) == s.Flow(d)
  {
    ShutdownLoads(s, d);
    ReadLoads(s, e, d);
  }

  /** A direction goes on exactly if its own operation succeeded. */
  lemma HandlerLoads(rest: Session, p: Pending, d: Direction)
    requires p.status.Ready?
    ensures Load(Handle(rest, p), d) == Load(rest, d) + if Uses(p.op, d) && p.status.ec == Ok then 1 else 0
    ensures Handle(rest, p).Flow(d) == rest.Flow(d)
  {
    ShutdownLoads(rest, d);
    assert Shutdown(rest).Flow(d) == rest.Flow(d);
    hide Load, Shutdown, OnConnected, OnRead, OnWritten;
    match p.op
    case Connect => ConnectedLoads(rest, p.status.ec, d);
    case Read(e) => ReadDoneLoads(rest, e, p.status.ec, p.size, d);
    case Write(e) => WriteDoneLoads(rest, e, p.status.ec, d);
    case _ =>
  }

  lemma InOrder(s: Session, i: nat, d: Direction)
    requires Valid(s) && i < |s.pending| && Uses(s.pending[i].op, d)
    ensures Load(s, d) == 1 && |s.Flow(d).buf| == BUFFER_SIZE && InStep(s.Flow(d), s.pending[i], d)
  {
    assert FlowValid(s.Flow(d), s.pending, d) by {
      assert d == Up || d == Down;
    }
    SumOne(s.pending, i, UsesDirection(d));
  }

  lemma HandlerAccounts(s: Session, i: nat, d: Direction, lost: seq<Byte>)
    requires Valid(s) && i < |s.pending| && s.pending[i].status.Ready? && Accounted(s, d, lost)
    ensures Accounted(RunHandler(s, i).value, d, lost + LeftOver(s, Handles(i), d))
  {
    var p, rest := s.pending[i], s.(pending := Removed(s.pending, i));
    SumRemove(s.pending, i, UsesDirection(d));
    HandlerLoads(rest, p, d);
    if Uses(p.op, d) {
      InOrder(s, i, d);
    }
    hide Handle, Valid;
    assert lost + [] == lost;
    assert [] + LeftOver(s, Handles(i), d) == LeftOver(s, Handles(i), d);
    assert rest.Flow(d) == s.Flow(d);
  }

  lemma OtherEventAccounts(s: Session, e: Event, d: Direction, lost: seq<Byte>)
    requires Valid(s) && Step(s, e).Some? && !e.Handles? && Accounted(s, d, lost)
    ensures Accounted(Step(s, e).value, d, lost)
  {
    var t := Step(s, e).value;
    SumUpdate(s.pending, e.i, t.pending[e.i], UsesDirection(d));
    if Uses(s.pending[e.i].op, d) {
      InOrder(s, e.i, d);
    }
  }

  lemma {:induction false} RunAccounts(s: Session, events: seq<Event>, d: Direction, lost: seq<Byte>)
    requires Valid(s) && Run(s, events).Some? && Accounted(s, d, lost)
    ensures Accounted(Run(s, events).value, d, lost + Lost(s, events, d))
    decreases |events|
  {
    hide Valid, Accounted, LeftOver;
    if events == [] {
      assert lost + [] == lost;
    } else {
      var e := events[0];
      var left := LeftOver(s, e, d);
      StepKeepsValid(s, e);
      if e.Handles? {
        HandlerAccounts(s, e.i, d, lost);
      } else {
        OtherEventAccounts(s, e, d, lost);
        NothingLeftOver(s, e, d);
        assert lost + [] == lost;
      }
      RunAccounts(Step(s, e).value, events[1..], d, lost + left);
      assert (lost + left) + Lost(Step(s, e).value, events[1..], d) == lost + Lost(s, events, d);
    }
  }

  lemma NothingLeftOver(s: Session, e: Event, d: Direction)
    requires !e.Handles?
    ensures LeftOver(s, e, d) == []
  {}

  lemma {:induction false} LostExactlyIfShort(s: Session, events: seq<Event>, d: Direction)
    requires Valid(s) && Run(s, events).Some?
    ensures Lost(s, events, d) != [] <==> SomeWriteFailsShort(s, events, d)
    decreases |events|
  {
    hide Step;
    if events != [] {
      var e := events[0];
      if GivesUp(s, e, d) {
        InOrder(s, e.i, d);
      }
      StepKeepsValid(s, e);
      hide Valid;
      LostExactlyIfShort(Step(s, e).value, events[1..], d);
    }
  }

  /**
   * Over the whole life of a session, in each direction: the bytes the reads brought are those
   * written out and then those that a failing write had left. All arrive if and only if no write
   * fails short.
   */
  lemma EveryByteAccountedFor(backend: nat, idleTimeoutMs: nat, events: seq<Event>, d: Direction)
    requires var start := StartedSession(backend, idleTimeoutMs);
             Run(start, events).Some? && Run(start, events).value.pending == []
    ensures var start := StartedSession(backend, idleTimeoutMs);
            var r := Run(start, events).value.Flow(d);
            && Brought(start, events, d) == r.taken == r.given + Lost(start, events, d)
            && (Brought(start, events, d) == r.given <==> !SomeWriteFailsShort(start, events, d))
  {
    var start := StartedSession(backend, idleTimeoutMs);
    StartIsValid(backend, idleTimeoutMs);
    assert Load(start, d) == 1 by {
      assert d == Up || d == Down;
    }
    RunAccounts(start, events, d, []);
    LostExactlyIfShort(start, events, d);
    assert [] + Lost(start, events, d) == Lost(start, events, d);
    BytesArriveInOrder(backend, idleTimeoutMs, events, d);
  }

  /** The reply is read and its write begins; then the client's end of stream shuts the session down. */
  lemma ReplyUnderway(s: Session, reply: seq<Byte>) returns (t: Session)
    requires Relaying(s, []) && 0 < |reply| <= BUFFER_SIZE
    ensures Run(s, [Completes(2, true, reply)] + ([Handles(2)] + ([Completes(1, false, [])] + [Handles(1)]))).Some?
    ensures Run(s, [Completes(2, true, reply)] + ([Handles(2)] + ([Completes(1, false, [])] + [Handles(1)]))).value == t
    ensures t.shuttingDown && t.down.taken == reply && t.down.given == []
    ensures t.pending == [Pending(IdleTimer, Ready(Aborted), 0, 0), Pending(Write(Down), Ready(Aborted), |reply|, 0)]
  {
    var s1 := Step(s, Completes(2, true, reply)).value;
    var s2 := Step(s1, Handles(2)).value;
    assert s2.pending[2] == Pending(Write(Down), Waiting, |reply|, 0);
    var s3 := Step(s2, Completes(1, false, [])).value;
    t := Step(s3, Handles(1)).value;
    hide Step;
    RunOne(s3, Handles(1));
    RunCons(s2, Completes(1, false, []), [Handles(1)]);
    RunCons(s1, Handles(2), [Completes(1, false, [])] + [Handles(1)]);
    RunCons(s, Completes(2, true, reply), [Handles(2)] + ([Completes(1, false, [])] + [Handles(1)]));
  }

  lemma AbortedWriteEnds(s: Session, size: nat)
    requires s.shuttingDown
    requires s.pending == [Pending(IdleTimer, Ready(Aborted), 0, 0), Pending(Write(Down), Ready(Aborted), size, 0)]
    ensures Run(s, [Handles(1)] + [Handles(0)]).Some?
    ensures Run(s, [Handles(1)] + [Handles(0)]).value == s.(pending := [])
  {
    var s1 := Step(s, Handles(1)).value;
    assert s1 == s.(pending := s.pending[..1]);
    RunOne(s1, Handles(0));
    RunCons(s, Handles(1), [Handles(0)]);
  }

  /**
   * A client that ends its side of the stream loses what is on its way back to it: in some run the
   * whole reply is read from the backend and none of it reaches the client.
   */
  lemma EndOfStreamLosesReply(backend: nat, idleTimeoutMs: nat, reply: seq<Byte>) returns (events: seq<Event>)
    requires idleTimeoutMs > 0 && 0 < |reply| <= BUFFER_SIZE
    ensures var start := StartedSession(backend, idleTimeoutMs);
            && Run(start, events).Some? && Run(start, events).value.pending == []
            && Run(start, events).value.down.taken == reply && Run(start, events).value.down.given == []
            && Brought(start, events, Down) == reply
  {
    var s := DownloadStarts(backend, idleTimeoutMs);
    var t := ReplyUnderway(s, reply);
    AbortedWriteEnds(t, |reply|);
    hide Step, Relaying;
    var first := [Completes(2, true, reply)] + ([Handles(2)] + ([Completes(1, false, [])] + [Handles(1)]));
    RunConcat(s, first, [Handles(1)] + [Handles(0)]);
    var rest := first + ([Handles(1)] + [Handles(0)]);
    events := [Completes(1, true, [])] + ([Handles(1)] + ([Handles(0)] + rest));
    BytesArriveInOrder(backend, idleTimeoutMs, events, Down);
  }
}
