/** What every step of a session keeps, on every path and with handlers in any order. */
module SessionSafety {
  import opened Words
  import opened Sums
  import opened Asio
  import opened Sessions

  // ----- how the invariant moves with the pending operations -----

  lemma CancelKeepsSums(ps: seq<Pending>, ops: set<Op>, d: Direction)
    ensures Sum(Cancelled(ps, ops), UsesDirection(d)) == Sum(ps, UsesDirection(d))
  {
    SumMonotone(ps, Cancelled(ps, ops), UsesDirection(d));
    SumMonotone(Cancelled(ps, ops), ps, UsesDirection(d));
  }

  lemma CancelKeepsFlow(r: Relay, ps: seq<Pending>, ops: set<Op>, d: Direction)
    requires FlowValid(r, ps, d)
    ensures FlowValid(r, Cancelled(ps, ops), d)
  {
    CancelKeepsSums(ps, ops, d);
    forall i | 0 <= i < |ps| && Uses(Cancelled(ps, ops)[i].op, d)
      ensures InStep(r, Cancelled(ps, ops)[i], d)
    {
      assert InStep(r, ps[i], d);
    }
  }

  lemma RemoveKeepsFlow(r: Relay, ps: seq<Pending>, i: nat, d: Direction)
    requires i < |ps| && FlowValid(r, ps, d)
    ensures FlowValid(r, Removed(ps, i), d)
    ensures Sum(Removed(ps, i), UsesDirection(d)) == Sum(ps, UsesDirection(d)) - UsesDirection(d)(ps[i])
  {
    SumRemove(ps, i, UsesDirection(d));
  }

  /** A direction without an operation may start one that fits its bytes. */
  lemma AppendKeepsFlow(r: Relay, ps: seq<Pending>, p: Pending, d: Direction)
    requires FlowValid(r, ps, d)
    requires Uses(p.op, d) ==> Sum(ps, UsesDirection(d)) == 0 && InStep(r, p, d)
    ensures FlowValid(r, ps + [p], d)
    ensures Sum(ps + [p], UsesDirection(d)) == Sum(ps, UsesDirection(d)) + UsesDirection(d)(p)
  {
    SumAppend(ps, p, UsesDirection(d));
  }

  /** Changing the one operation of a direction, with its relay, to match. */
  lemma UpdateKeepsFlow(r: Relay, ps: seq<Pending>, i: nat, p: Pending, r': Relay, d: Direction)
    requires i < |ps| && FlowValid(r, ps, d) && p.op == ps[i].op
    requires !Uses(p.op, d) ==> r' == r
    requires Uses(p.op, d) ==> |r'.buf| == BUFFER_SIZE && r'.given <= r'.taken && InStep(r', p, d)
    ensures FlowValid(r', ps[i := p], d)
    ensures Sum(ps[i := p], UsesDirection(d)) == Sum(ps, UsesDirection(d))
  {
    SumUpdate(ps, i, p, UsesDirection(d));
    forall k | 0 <= k < |ps| && k != i && Uses(ps[k].op, d)
      ensures InStep(r', ps[k], d)
    {
      if Uses(p.op, d) {
        SumTwo(ps, i, k, UsesDirection(d));
      }
    }
  }

  // ----- every handler keeps the invariant -----

  lemma CancellingKeeps(s: Session, ops: set<Op>)
    requires Calm(s)
    ensures Calm(s.Cancelling(ops))
    ensures forall d :: Load(s.Cancelling(ops), d) == Load(s, d)
  {
    CancelKeepsFlow(s.up, s.pending, ops, Up);
    CancelKeepsFlow(s.down, s.pending, ops, Down);
    forall d
      ensures Load(s.Cancelling(ops), d) == Load(s, d)
    {
      CancelKeepsSums(s.pending, ops, d);
    }
  }

  lemma StartingKeeps(s: Session, op: Op, size: nat)
    requires Calm(s) && op != Connect && op != ConnectTimer
    requires forall d | Uses(op, d) :: Load(s, d) == 0
               && InStep(s.Flow(d), Pending(op, Started(s.Open(op)), size, 0), d)
    ensures Calm(s.Starting(op, size))
    ensures forall d :: Load(s.Starting(op, size), d) == Load(s, d) + if Uses(op, d) then 1 else 0
  {
    var p := Pending(op, Started(s.Open(op)), size, 0);
    forall d
      ensures FlowValid(s.Flow(d), s.pending + [p], d)
      ensures Load(s.Starting(op, size), d) == Load(s, d) + if Uses(op, d) then 1 else 0
    {
      match d
      case Up => AppendKeepsFlow(s.up, s.pending, p, Up);
      case Down => AppendKeepsFlow(s.down, s.pending, p, Down);
    }
    assert FlowValid(s.Flow(Up), s.pending + [p], Up) && FlowValid(s.Flow(Down), s.pending + [p], Down);
  }

  /** Shutting down is safe wherever the two chains stand, and at first leaves nothing waiting. */
  lemma ShutdownKeeps(s: Session)
    requires Calm(s)
    ensures Valid(Shutdown(s)) && Shutdown(s).shuttingDown
    ensures !s.shuttingDown ==> forall p | p in Shutdown(s).pending :: p.status.Ready?
  {
    if !s.shuttingDown {
      var ops := TIMER_OPS + CLIENT_OPS + BACKEND_OPS;
      CancelKeepsFlow(s.up, s.pending, ops, Up);
      CancelKeepsFlow(s.down, s.pending, ops, Down);
      forall op: Op
        ensures op in ops
      {
        match op
        case Read(d) => assert d == Up || d == Down;
        case Write(d) => assert d == Up || d == Down;
        case _ =>
      }
    }
  }

  lemma ReadFromKeeps(s: Session, d: Direction)
    requires Calm(s) && Load(s, d) == 0 && s.Flow(d).given == s.Flow(d).taken
    ensures Calm(ReadFrom(s, d)) && ReadFrom(s, d).shuttingDown == s.shuttingDown
    ensures forall e :: Load(ReadFrom(s, d), e) == Load(s, e) + if e == d then 1 else 0
  {
    if d == Up && s.idleTimeoutMs > 0 {
      CancellingKeeps(s, {IdleTimer});
      StartingKeeps(s.Cancelling({IdleTimer}), IdleTimer, 0);
      StartingKeeps(ArmIdle(s), Read(Up), 0);
    } else {
      StartingKeeps(s, Read(d), 0);
    }
  }

  /** Taking a handler off the queue frees the directions it used. */
  lemma TakingKeeps(s: Session, i: nat)
    requires Calm(s) && i < |s.pending|
    ensures Calm(s.(pending := Removed(s.pending, i)))
    ensures forall d :: Load(s.(pending := Removed(s.pending, i)), d)
                     == Load(s, d) - if Uses(s.pending[i].op, d) then 1 else 0
    ensures forall d :: Load(s, d) <= 1
  {
    RemoveKeepsFlow(s.up, s.pending, i, Up);
    RemoveKeepsFlow(s.down, s.pending, i, Down);
    forall d
      ensures Load(s.(pending := Removed(s.pending, i)), d)
           == Load(s, d) - if Uses(s.pending[i].op, d) then 1 else 0
      ensures Load(s, d) <= 1
    {
      match d
      case Up =>
      case Down =>
    }
  }

  /** The direction an operation moved is free again, and the other is as busy as before. */
  ghost predicate Freed(rest: Session, p: Pending) {
    && Calm(rest)
    && forall d :: if Uses(p.op, d) then Load(rest, d) == 0 && InStep(rest.Flow(d), p, d)
                   else !rest.shuttingDown ==> Load(rest, d) == 1
  }

  lemma TakingFrees(s: Session, i: nat)
    requires Valid(s) && i < |s.pending|
    ensures Freed(s.(pending := Removed(s.pending, i)), s.pending[i])
  {
    var p, rest := s.pending[i], s.(pending := Removed(s.pending, i));
    TakingKeeps(s, i);
    forall d
      ensures Uses(p.op, d) ==> Load(rest, d) == 0 && InStep(rest.Flow(d), p, d)
      ensures !Uses(p.op, d) && !rest.shuttingDown ==> Load(rest, d) == 1
    {
      match d
      case Up => assert FlowValid(s.up, s.pending, Up);
      case Down => assert FlowValid(s.down, s.pending, Down);
    }
  }

  lemma OnConnectedKeeps(rest: Session, p: Pending)
    requires Freed(rest, p) && p.op == Connect && p.status.Ready?
    ensures Valid(OnConnected(rest, p.status.ec))
  {
    hide InStep, FlowValid;
    var t := rest.Cancelling({ConnectTimer});
    CancellingKeeps(rest, {ConnectTimer});
    if p.status.ec != Ok {
      ShutdownKeeps(t);
    } else {
      AtConnect(rest, p);
      ReadFromKeeps(t, Up);
      ReadFromKeeps(ReadFromClient(t), Down);
    }
  }

  lemma AtConnect(rest: Session, p: Pending)
    requires Freed(rest, p) && p.op == Connect
    ensures forall d :: Load(rest, d) == 0 && rest.Flow(d).given == rest.Flow(d).taken
  {
    forall d
      ensures Load(rest, d) == 0 && rest.Flow(d).given == rest.Flow(d).taken
    {
      assert Uses(p.op, d);
    }
  }

  lemma OnReadKeeps(rest: Session, p: Pending, d: Direction)
    requires Freed(rest, p) && p.op == Read(d) && p.status.Ready?
    ensures Valid(OnRead(rest, d, p.status.ec, p.size))
  {
    assert Uses(p.op, d);
    if p.status.ec != Ok {
      ShutdownKeeps(rest);
    } else {
      StartingKeeps(rest, Write(d), p.size);
    }
  }

  lemma OnWrittenKeeps(rest: Session, p: Pending, d: Direction)
    requires Freed(rest, p) && p.op == Write(d) && p.status.Ready?
    ensures Valid(OnWritten(rest, d, p.status.ec))
  {
    assert Uses(p.op, d);
    if p.status.ec != Ok {
      ShutdownKeeps(rest);
    } else {
      ReadFromKeeps(rest, d);
    }
  }

  lemma HandlerKeepsValid(s: Session, i: nat)
    requires Valid(s) && i < |s.pending| && s.pending[i].status.Ready?
    ensures Valid(RunHandler(s, i).value)
  {
    hide Calm, FlowValid, InStep, OnConnected, OnRead, OnWritten, Shutdown;
    var p, rest := s.pending[i], s.(pending := Removed(s.pending, i));
    TakingFrees(s, i);
    match p.op
    case ConnectTimer => ShutdownKeeps(rest);
    case IdleTimer => ShutdownKeeps(rest);
    case Connect => OnConnectedKeeps(rest, p);
    case Read(d) => OnReadKeeps(rest, p, d);
    case Write(d) => OnWrittenKeeps(rest, p, d);
  }

  /** Changing the status of one operation, its direction's relay with it, and nothing else. */
  lemma CompletedKeeps(s: Session, i: nat, p: Pending, d: Direction, r: Relay)
    requires Valid(s) && i < |s.pending| && p.op == s.pending[i].op && p.status.Ready?
    requires !Uses(p.op, d) ==> r == s.Flow(d)
    requires Uses(p.op, d) ==> |r.buf| == BUFFER_SIZE && r.given <= r.taken && InStep(r, p, d)
    requires forall e | e != d && Uses(p.op, e) :: InStep(s.Flow(e), p, e)
    ensures Valid(s.WithFlow(d, r).(pending := s.pending[i := p]))
  {
    hide InStep, FlowValid;
    var up, down := if d == Up then r else s.up, if d == Down then r else s.down;
    StillAt(s);
    UpdateKeepsFlow(s.up, s.pending, i, p, up, Up);
    UpdateKeepsFlow(s.down, s.pending, i, p, down, Down);
  }

  lemma StillAt(s: Session)
    requires Valid(s)
    ensures forall d :: |s.Flow(d).buf| == BUFFER_SIZE && s.Flow(d).given <= s.Flow(d).taken
  {}

  lemma OtherCompletionKeeps(s: Session, i: nat, ec: Ec)
    requires Valid(s) && i < |s.pending| && s.pending[i].status.Waiting? && ec != Aborted
    requires ec == Ok ==> s.pending[i].op == ConnectTimer || s.pending[i].op == IdleTimer || s.pending[i].op == Connect
                          || (s.pending[i].op.Write? && s.pending[i].sent == s.pending[i].size)
    ensures Valid(s.(pending := s.pending[i := s.pending[i].(status := Ready(ec))]))
  {
    var p := s.pending[i].(status := Ready(ec));
    forall d | Uses(p.op, d)
      ensures InStep(s.Flow(d), p, d)
    {
      assert FlowValid(s.Flow(d), s.pending, d) by {
        assert d == Up || d == Down;
      }
      assert InStep(s.Flow(d), s.pending[i], d);
    }
    hide InStep, FlowValid;
    StillAt(s);
    CompletedKeeps(s, i, p, Up, s.up);
  }

  lemma ReadCompletionKeeps(s: Session, i: nat, d: Direction, data: seq<Byte>)
    requires Valid(s) && i < |s.pending| && s.pending[i].status.Waiting? && s.pending[i].op == Read(d)
    requires 0 < |data| <= BUFFER_SIZE
    ensures Valid(s.WithFlow(d, Filled(s.Flow(d), data))
                   .(pending := s.pending[i := s.pending[i].(status := Ready(Ok), size := |data|)]))
  {
    var p := s.pending[i].(status := Ready(Ok), size := |data|);
    var r, r' := s.Flow(d), Filled(s.Flow(d), data);
    assert FlowValid(r, s.pending, d) by {
      assert d == Up || d == Down;
    }
    assert InStep(r, s.pending[i], d);
    assert r'.buf[..|data|] == data;
    assert InStep(r', p, d);
    hide InStep, FlowValid;
    CompletedKeeps(s, i, p, d, r');
  }

  lemma CompletionKeepsValid(s: Session, i: nat, ok: bool, data: seq<Byte>)
    requires Valid(s) && i < |s.pending| && Complete(s, i, ok, data).Some?
    ensures Valid(Complete(s, i, ok, data).value)
  {
    StillAt(s);
    hide Valid;
    if s.pending[i].op.Read? && ok {
      ReadCompletionKeeps(s, i, s.pending[i].op.d, data);
    } else {
      OtherCompletionKeeps(s, i, if ok then Ok else OtherError);
    }
  }

  lemma TransmissionKeepsValid(s: Session, i: nat, n: nat)
    requires Valid(s) && i < |s.pending| && Transmit(s, i, n).Some?
    ensures Valid(Transmit(s, i, n).value)
  {
    var t := Transmit(s, i, n).value;
    var p := s.pending[i];
    var r, r' := s.Flow(p.op.d), t.Flow(p.op.d);
    assert InStep(r, p, p.op.d);
    assert r.buf[p.sent..p.size] == r.buf[p.sent..p.sent + n] + r.buf[p.sent + n..p.size];
    assert r'.given + r.buf[p.sent + n..p.size] == r.taken;
    UpdateKeepsFlow(s.up, s.pending, i, t.pending[i], t.up, Up);
    UpdateKeepsFlow(s.down, s.pending, i, t.pending[i], t.down, Down);
  }

  lemma StepKeepsValid(s: Session, e: Event)
    requires Valid(s) && Step(s, e).Some?
    ensures Valid(Step(s, e).value)
  {
    match e
    case Completes(i, ok, data) => CompletionKeepsValid(s, i, ok, data);
    case Transmits(i, n) => TransmissionKeepsValid(s, i, n);
    case Handles(i) => HandlerKeepsValid(s, i);
  }

  lemma StartIsValid(backend: nat, idleTimeoutMs: nat)
    ensures Valid(StartedSession(backend, idleTimeoutMs))
  {
    var s := StartedSession(backend, idleTimeoutMs);
    var ps := s.pending;
    forall d
      ensures Load(s, d) == 1
    {
      assert ps[1..][1..] == [];
    }
  }

  lemma {:induction false} RunKeepsValid(s: Session, events: seq<Event>)
    requires Valid(s) && Run(s, events).Some?
    ensures Valid(Run(s, events).value)
    decreases |events|
  {
    if events != [] {
      StepKeepsValid(s, events[0]);
      RunKeepsValid(Step(s, events[0]).value, events[1..]);
    }
  }

  // ----- the bytes of a run, told by its events alone -----

  /** The bytes an event brings in for a direction: the data of a good read. */
  function BroughtBy(s: Session, e: Event, d: Direction): seq<Byte> {
    if e.Completes? && e.ok && e.i < |s.pending| && s.pending[e.i].op == Read(d) then e.data else []
  }

  function Brought(s: Session, events: seq<Event>, d: Direction): seq<Byte>
    requires Run(s, events).Some?
    decreases |events|
  {
    if events == [] then [] else BroughtBy(s, events[0], d) + Brought(Step(s, events[0]).value, events[1..], d)
  }

  /** How many bytes an event puts on the wire for a direction. */
  function SentBy(s: Session, e: Event, d: Direction): nat {
    if e.Transmits? && e.i < |s.pending| && s.pending[e.i].op == Write(d) then e.n else 0
  }

  function Sent(s: Session, events: seq<Event>, d: Direction): nat
    requires Run(s, events).Some?
    decreases |events|
  {
    if events == [] then 0 else SentBy(s, events[0], d) + Sent(Step(s, events[0]).value, events[1..], d)
  }

  lemma HandlersMoveNoBytes(rest: Session, p: Pending)
    requires p.status.Ready?
    ensures Handle(rest, p).up == rest.up && Handle(rest, p).down == rest.down
  {}

  lemma StepMovesItsBytes(s: Session, e: Event, d: Direction)
    requires Step(s, e).Some?
    ensures Step(s, e).value.Flow(d).taken == s.Flow(d).taken + BroughtBy(s, e, d)
    ensures |Step(s, e).value.Flow(d).given| == |s.Flow(d).given| + SentBy(s, e, d)
  {
    hide Handle;
    if e.Handles? {
      HandlersMoveNoBytes(s.(pending := Removed(s.pending, e.i)), s.pending[e.i]);
    }
  }

  /** What a session has read is what the events of its run brought, and no more or less is written than they send. */
  lemma {:induction false} RunMovesItsBytes(s: Session, events: seq<Event>, d: Direction)
    requires Run(s, events).Some?
    ensures Run(s, events).value.Flow(d).taken == s.Flow(d).taken + Brought(s, events, d)
    ensures |Run(s, events).value.Flow(d).given| == |s.Flow(d).given| + Sent(s, events, d)
    decreases |events|
  {
    hide Step;
    if events != [] {
      StepMovesItsBytes(s, events[0], d);
      RunMovesItsBytes(Step(s, events[0]).value, events[1..], d);
    }
  }

  /** A waiting read takes any number of bytes from 1 to 8192. */
  lemma ReadTakesUpToBuffer(s: Session, i: nat, d: Direction, data: seq<Byte>)
    requires Valid(s) && i < |s.pending| && s.pending[i].op == Read(d) && s.pending[i].status.Waiting?
    ensures Step(s, Completes(i, true, data)).Some? <==> 1 <= |data| <= 8192
  {
    StillAt(s);
  }

  /**
   * In every run of a session, in both directions, whatever the chunks and whatever the order of
   * completions and handlers: the bytes written out are a prefix of the bytes the reads brought in,
   * as long as the writes have sent.
   */
  lemma BytesArriveInOrder(backend: nat, idleTimeoutMs: nat, events: seq<Event>, d: Direction)
    requires Run(StartedSession(backend, idleTimeoutMs), events).Some?
    ensures var start := StartedSession(backend, idleTimeoutMs);
            var s := Run(start, events).value;
            && s.Flow(d).given <= s.Flow(d).taken == Brought(start, events, d)
            && |s.Flow(d).given| == Sent(start, events, d)
  {
    var start := StartedSession(backend, idleTimeoutMs);
    StartIsValid(backend, idleTimeoutMs);
    RunKeepsValid(start, events);
    RunMovesItsBytes(start, events, d);
    StillAt(Run(start, events).value);
    assert [] + Brought(start, events, d) == Brought(start, events, d);
  }

  /** A buffer is never refilled while a write from it is pending. */
  lemma NoRefillDuringWrite(s: Session, i: nat, j: nat, d: Direction)
    requires Valid(s) && i < |s.pending| && j < |s.pending|
    requires s.pending[i].op == Read(d)
    ensures s.pending[j].op != Write(d)
  {
    if s.pending[j].op == Write(d) {
      SumTwo(s.pending, i, j, UsesDirection(d));
    }
  }

  /** Only a session that has shut down runs out of pending operations, and so is destroyed. */
  lemma DestroyedOnlyAfterShutdown(s: Session)
    requires Valid(s) && s.pending == []
    ensures s.shuttingDown
  {}
}
