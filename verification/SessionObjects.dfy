/**
 * The session as the program has it: an object whose methods update its fields, each proved to
 * act as the corresponding function of the state machine.
 */
module SessionObjects {
  import opened Words
  import opened Sums
  import opened Asio
  import opened ServicePools
  import opened Sessions
  import opened SessionSafety

  lemma CancelledTwice(ps: seq<Pending>, first: set<Op>, second: set<Op>)
    ensures Cancelled(Cancelled(ps, first), second) == Cancelled(ps, first + second)
  {}

  class Session {
    const backend: ServiceState
    const idleTimeoutMs: nat
    const clientBuf: array<Byte>
    const backendBuf: array<Byte>
    var shuttingDown: bool
    var clientOpen: bool
    var backendOpen: bool

    /** The operations this session has given to the event loop; their handlers keep it alive. */
    var pending: seq<Pending>

    /** The backend's place in the pool, and what has passed through so far. */
    ghost const backendIndex: nat
    ghost var fromClient: seq<Byte>
    ghost var toBackend: seq<Byte>
    ghost var fromBackend: seq<Byte>
    ghost var toClient: seq<Byte>

    ghost function View(): Sessions.Session
      reads this, clientBuf, backendBuf
    {
      Sessions.Session(backendIndex, idleTimeoutMs, shuttingDown, clientOpen, backendOpen,
                       Relay(clientBuf[..], fromClient, toBackend),
                       Relay(backendBuf[..], fromBackend, toClient),
                       pending)
    }

    constructor (backend: ServiceState, ghost backendIndex: nat, idleTimeoutMs: nat)
      ensures this.backend == backend && fresh(clientBuf) && fresh(backendBuf) && clientBuf != backendBuf
      ensures View() == StartedSession(backendIndex, idleTimeoutMs).(pending := [])
    {
      this.backend, this.backendIndex, this.idleTimeoutMs := backend, backendIndex, idleTimeoutMs;
      clientBuf := new Byte[BUFFER_SIZE](_ => 0);
      backendBuf := new Byte[BUFFER_SIZE](_ => 0);
      shuttingDown, clientOpen, backendOpen := false, true, true;
      pending := [];
      fromClient, toBackend, fromBackend, toClient := [], [], [], [];
      new;
      assert clientBuf[..] == NewRelay().buf && backendBuf[..] == NewRelay().buf;
    }

    /** The destructor, run when the last handler that holds the session is gone. */
    method Destroy(spuriousFailures: nat)
      requires pending == []
      modifies backend
      ensures backend.View() == old(backend.View()).(active := Decremented(old(backend.activeConnections)))
    {
      backend.DecrementConnections(spuriousFailures);
    }

    method Start()
      modifies this`pending
      ensures View() == old(View()).Starting(ConnectTimer, 0).Starting(Connect, 0)
      ensures old(View()) == StartedSession(backendIndex, idleTimeoutMs).(pending := []) ==>
                View() == StartedSession(backendIndex, idleTimeoutMs)
    {
      ConnectToBackend();
    }

    method ConnectToBackend()
      modifies this`pending
      ensures View() == old(View()).Starting(ConnectTimer, 0).Starting(Connect, 0)
    {
      AsyncStart(ConnectTimer, true, 0);
      AsyncStart(Connect, backendOpen, 0);
    }

    // ----- what Asio does on request -----

    method AsyncStart(op: Op, open: bool, size: nat)
      modifies this`pending
      ensures pending == old(pending) + [Pending(op, Started(open), size, 0)]
    {
      pending := pending + [Pending(op, Started(open), size, 0)];
    }

    method CancelTimer(timer: Op)
      modifies this`pending
      ensures pending == Cancelled(old(pending), {timer})
    {
      pending := Cancelled(pending, {timer});
    }

    method CloseClientSocket()
      modifies this`pending, this`clientOpen
      ensures !clientOpen && pending == Cancelled(old(pending), CLIENT_OPS)
    {
      clientOpen := false;
      pending := Cancelled(pending, CLIENT_OPS);
    }

    method CloseBackendSocket()
      modifies this`pending, this`backendOpen
      ensures !backendOpen && pending == Cancelled(old(pending), BACKEND_OPS)
    {
      backendOpen := false;
      pending := Cancelled(pending, BACKEND_OPS);
    }

    // ----- the handlers -----

    method OnConnected(ec: Ec)
      modifies this
      ensures View() == Sessions.OnConnected(old(View()), ec)
    {
      CancelTimer(ConnectTimer);
      if ec != Ok {
        Shutdown();
        return;
      }
      ReadFromClient();
      ReadFromBackend();
    }

    method ReadFromClient()
      modifies this`pending
      ensures View() == Sessions.ReadFromClient(old(View()))
    {
      if idleTimeoutMs > 0 {
        CancelTimer(IdleTimer);
        AsyncStart(IdleTimer, true, 0);
      }
      AsyncStart(Read(Up), clientOpen, 0);
    }

    method ReadFromBackend()
      modifies this`pending
      ensures View() == Sessions.ReadFromBackend(old(View()))
    {
      AsyncStart(Read(Down), backendOpen, 0);
    }

    method Shutdown()
      modifies this`pending, this`shuttingDown, this`clientOpen, this`backendOpen
      ensures View() == Sessions.Shutdown(old(View()))
    {
      if shuttingDown {
        return;
      }
      shuttingDown := true;
      ghost var ps := pending;
      CancelTimer(ConnectTimer);
      CancelTimer(IdleTimer);
      CloseClientSocket();
      CloseBackendSocket();
      CancelledTwice(ps, {ConnectTimer}, {IdleTimer});
      CancelledTwice(ps, {ConnectTimer} + {IdleTimer}, CLIENT_OPS);
      CancelledTwice(ps, {ConnectTimer} + {IdleTimer} + CLIENT_OPS, BACKEND_OPS);
      assert {ConnectTimer} + {IdleTimer} == TIMER_OPS;
    }

    method OnTimer(ec: Ec)
      modifies this
      ensures View() == Sessions.OnTimer(old(View()), ec)
    {
      if ec == Ok {
        Shutdown();
      }
    }

    method OnClientRead(ec: Ec, bytes: nat)
      modifies this
      ensures View() == OnRead(old(View()), Up, ec, bytes)
    {
      if ec != Ok {
        Shutdown();
        return;
      }
      AsyncStart(Write(Up), backendOpen, bytes);
    }

    method OnBackendWritten(ec: Ec)
      modifies this
      ensures View() == OnWritten(old(View()), Up, ec)
    {
      if ec != Ok {
        Shutdown();
        return;
      }
      ReadFromClient();
    }

    method OnBackendRead(ec: Ec, bytes: nat)
      modifies this
      ensures View() == OnRead(old(View()), Down, ec, bytes)
    {
      if ec != Ok {
        Shutdown();
        return;
      }
      AsyncStart(Write(Down), clientOpen, bytes);
    }

    method OnClientWritten(ec: Ec)
      modifies this
      ensures View() == OnWritten(old(View()), Down, ec)
    {
      if ec != Ok {
        Shutdown();
        return;
      }
      ReadFromBackend();
    }

    /** The event loop takes a queued handler and runs it. */
    method RunHandler(i: nat)
      requires i < |pending| && pending[i].status.Ready?
      modifies this
      ensures View() == Sessions.RunHandler(old(View()), i).value
    {
      var p := pending[i];
      pending := Removed(pending, i);
      match p.op
      case ConnectTimer => OnTimer(p.status.ec);
      case IdleTimer => OnTimer(p.status.ec);
      case Connect => OnConnected(p.status.ec);
      case Read(d) =>
        if d == Up {
          OnClientRead(p.status.ec, p.size);
        } else {
          OnBackendRead(p.status.ec, p.size);
        }
      case Write(d) =>
        if d == Up {
          OnBackendWritten(p.status.ec);
        } else {
          OnClientWritten(p.status.ec);
        }
    }

    // ----- the event loop -----

    /** Bytes read land in the front of a buffer, in place. */
    static method Receive(buf: array<Byte>, data: seq<Byte>)
      requires |data| <= buf.Length
      modifies buf
      ensures buf[..] == data + old(buf[..])[|data|..]
    {
      ghost var rest := buf[|data|..];
      for k := 0 to |data|
        invariant buf[..k] == data[..k] && buf[|data|..] == rest
      {
        buf[k] := data[k];
      }
      assert buf[..] == buf[..|data|] + buf[|data|..] == data + rest;
      assert rest == old(buf[..])[|data|..];
    }

    /** A pending operation finishes; a read brings data. */
    method Complete(i: nat, ok: bool, data: seq<Byte>)
      requires i < |pending| && Sessions.Complete(View(), i, ok, data).Some? && clientBuf != backendBuf
      modifies this, clientBuf, backendBuf
      ensures View() == Sessions.Complete(old(View()), i, ok, data).value
    {
      var p := pending[i];
      if !ok {
        pending := pending[i := p.(status := Ready(OtherError))];
        return;
      }
      if p.op == Read(Up) {
        Receive(clientBuf, data);
        fromClient := fromClient + data;
        p := p.(size := |data|);
      } else if p.op == Read(Down) {
        Receive(backendBuf, data);
        fromBackend := fromBackend + data;
        p := p.(size := |data|);
      }
      pending := pending[i := p.(status := Ready(Ok))];
    }

    /** A write puts `n` more bytes of its buffer on the wire. */
    method Transmit(i: nat, n: nat)
      requires i < |pending| && Sessions.Transmit(View(), i, n).Some?
      modifies this
      ensures View() == Sessions.Transmit(old(View()), i, n).value
    {
      var p := pending[i];
      if p.op == Write(Up) {
        toBackend := toBackend + clientBuf[p.sent..p.sent + n];
        assert clientBuf[..][p.sent..p.sent + n] == clientBuf[p.sent..p.sent + n];
      } else {
        toClient := toClient + backendBuf[p.sent..p.sent + n];
        assert backendBuf[..][p.sent..p.sent + n] == backendBuf[p.sent..p.sent + n];
      }
      pending := pending[i := p.(sent := p.sent + n)];
    }

    method Step(e: Event)
      requires Sessions.Step(View(), e).Some? && clientBuf != backendBuf
      modifies this, clientBuf, backendBuf
      ensures View() == Sessions.Step(old(View()), e).value
    {
      match e
      case Completes(i, ok, data) => Complete(i, ok, data);
      case Transmits(i, n) => Transmit(i, n);
      case Handles(i) => RunHandler(i);
    }

    /**
     * Whole runs: driven by any events the event loop may deliver, the object goes through the
     * states of the state machine; so it has read what the events brought, and what it has written out
     * is a prefix of that.
     */
    method Run(events: seq<Event>)
      requires Sessions.Run(View(), events).Some? && Sessions.Valid(View()) && clientBuf != backendBuf
      modifies this, clientBuf, backendBuf
      ensures View() == Sessions.Run(old(View()), events).value
      ensures fromClient == old(fromClient) + Brought(old(View()), events, Up)
      ensures fromBackend == old(fromBackend) + Brought(old(View()), events, Down)
      ensures |toBackend| == |old(toBackend)| + Sent(old(View()), events, Up)
      ensures |toClient| == |old(toClient)| + Sent(old(View()), events, Down)
      ensures toBackend <= fromClient && toClient <= fromBackend
      ensures pending == [] ==> shuttingDown
    {
      RunKeepsValid(View(), events);
      RunMovesItsBytes(View(), events, Up);
      RunMovesItsBytes(View(), events, Down);
      ghost var start := View();
      for k := 0 to |events|
        invariant Sessions.Run(View(), events[k..]) == Sessions.Run(start, events)
      {
        hide Sessions.Step, Sessions.Valid;
        assert events[k..][0] == events[k] && events[k..][1..] == events[k + 1..];
        Step(events[k]);
      }
      assert events[|events|..] == [];
      DestroyedOrNot(View());
    }
  }

  lemma DestroyedOrNot(s: Sessions.Session)
    requires Sessions.Valid(s)
    ensures s.up.given <= s.up.taken && s.down.given <= s.down.taken
    ensures s.pending == [] ==> s.shuttingDown
  {
    if s.pending == [] {
      DestroyedOnlyAfterShutdown(s);
    }
  }
}
