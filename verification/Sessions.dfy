/**
 * One proxied connection (core/proxy/Session.cpp) as a state machine: its handlers as functions
 * on session states, and the completions that may make them ready.
 */
module Sessions {
  import opened Outcomes
  import opened Words
  import opened Sums
  import opened Asio

  const BUFFER_SIZE: nat := 8192

  /** Upstream: client to backend. Downstream: backend to client. */
  datatype Direction = Up | Down

  datatype Op = ConnectTimer | IdleTimer | Connect | Read(d: Direction) | Write(d: Direction)

  /**
   * A started operation. A completed read holds its byte count in `size`; a write sends the
   * first `size` bytes of its direction's buffer, of which `sent` are out.
   */
  datatype Pending = Pending(op: Op, status: Status, size: nat, sent: nat)

  /** One direction: its buffer, every byte read into it so far, every byte written out so far. */
  datatype Relay = Relay(buf: seq<Byte>, taken: seq<Byte>, given: seq<Byte>)

  datatype Session = Session(
    backend: nat,
    idleTimeoutMs: nat,
    shuttingDown: bool,
    clientOpen: bool,
    backendOpen: bool,
    up: Relay,
    down: Relay,
    pending: seq<Pending>)
  {
    function Flow(d: Direction): Relay {
      if d == Up then up else down
    }

    function WithFlow(d: Direction, r: Relay): Session {
      if d == Up then this.(up := r) else this.(down := r)
    }

    /** The socket an operation works on: a direction reads on one side and writes on the other. */
    predicate Open(op: Op) {
      match op
      case Read(d) => if d == Up then clientOpen else backendOpen
      case Write(d) => if d == Up then backendOpen else clientOpen
      case Connect => backendOpen
      case _ => true
    }

    function Starting(op: Op, size: nat): Session {
      this.(pending := pending + [Pending(op, Started(Open(op)), size, 0)])
    }

    function Cancelling(ops: set<Op>): Session {
      this.(pending := Cancelled(pending, ops))
    }
  }

  function CancelledOne(p: Pending, ops: set<Op>): Pending {
    if p.op in ops then p.(status := Cancel(p.status)) else p
  }

  function Cancelled(ps: seq<Pending>, ops: set<Op>): (r: seq<Pending>)
    ensures |r| == |ps|
  {
    seq(|ps|, i requires 0 <= i < |ps| => CancelledOne(ps[i], ops))
  }

  const CLIENT_OPS: set<Op> := {Read(Up), Write(Down)}
  const BACKEND_OPS: set<Op> := {Connect, Read(Down), Write(Up)}
  const TIMER_OPS: set<Op> := {ConnectTimer, IdleTimer}

  // ----- the handlers -----

  function NewRelay(): Relay {
    Relay(seq(BUFFER_SIZE, _ => 0), [], [])
  }

  /** A session just constructed and started: the connect timer is armed and the connect under way. */
  function StartedSession(backend: nat, idleTimeoutMs: nat): Session {
    Session(backend, idleTimeoutMs, false, true, true, NewRelay(), NewRelay(),
            [Pending(ConnectTimer, Waiting, 0, 0), Pending(Connect, Waiting, 0, 0)])
  }

  /** Arming the idle timer again first aborts the wait it still has. */
  function ArmIdle(s: Session): Session {
    if s.idleTimeoutMs > 0 then s.Cancelling({IdleTimer}).Starting(IdleTimer, 0) else s
  }

  function ReadFromClient(s: Session): Session {
    ArmIdle(s).Starting(Read(Up), 0)
  }

  function ReadFromBackend(s: Session): Session {
    s.Starting(Read(Down), 0)
  }

  function ReadFrom(s: Session, d: Direction): Session {
    if d == Up then ReadFromClient(s) else ReadFromBackend(s)
  }

  function Shutdown(s: Session): Session {
    if s.shuttingDown then s
    else s.(shuttingDown := true, clientOpen := false, backendOpen := false)
          .Cancelling(TIMER_OPS + CLIENT_OPS + BACKEND_OPS)
  }

  function OnTimer(s: Session, ec: Ec): Session {
    if ec == Ok then Shutdown(s) else s
  }

  function OnConnected(s: Session, ec: Ec): Session {
    var t := s.Cancelling({ConnectTimer});
    if ec != Ok then Shutdown(t) else ReadFromBackend(ReadFromClient(t))
  }

  function OnRead(s: Session, d: Direction, ec: Ec, bytes: nat): Session {
    if ec != Ok then Shutdown(s) else s.Starting(Write(d), bytes)
  }

  function OnWritten(s: Session, d: Direction, ec: Ec): Session {
    if ec != Ok then Shutdown(s) else ReadFrom(s, d)
  }

  /** Running the handler of a completed operation. */
  function Handle(s: Session, p: Pending): Session
    requires p.status.Ready?
  {
    match p.op
    case ConnectTimer => OnTimer(s, p.status.ec)
    case IdleTimer => OnTimer(s, p.status.ec)
    case Connect => OnConnected(s, p.status.ec)
    case Read(d) => OnRead(s, d, p.status.ec, p.size)
    case Write(d) => OnWritten(s, d, p.status.ec)
  }

  // ----- events -----

  datatype Event =
    | Completes(i: nat, ok: bool, data: seq<Byte>)  // the operation finishes; a read brings data
    | Transmits(i: nat, n: nat)                     // a write puts n more bytes on the wire
    | Handles(i: nat)                               // a queued handler runs

  /** A read fills the front of the buffer in place. */
  function Filled(r: Relay, data: seq<Byte>): Relay
    requires |data| <= |r.buf|
  {
    Relay(data + r.buf[|data|..], r.taken + data, r.given)
  }

  function Complete(s: Session, i: nat, ok: bool, data: seq<Byte>): Option<Session>
    requires i < |s.pending|
  {
    var p := s.pending[i];
    var failed := s.(pending := s.pending[i := p.(status := Ready(OtherError))]);
    var done := s.(pending := s.pending[i := p.(status := Ready(Ok))]);
    if p.status.Ready? then None
    else
      match p.op
      case ConnectTimer => if ok then Some(done) else None
      case IdleTimer => if ok then Some(done) else None
      case Connect => Some(if ok then done else failed)
      case Read(d) =>
        if !ok then Some(failed)
        else if 0 < |data| <= |s.Flow(d).buf| then
          Some(s.WithFlow(d, Filled(s.Flow(d), data))
                .(pending := s.pending[i := p.(status := Ready(Ok), size := |data|)]))
        else None
      case Write(d) =>
        if !ok then Some(failed) else if p.sent == p.size then Some(done) else None
  }

  /** A write sends what the buffer holds now. */
  function Transmit(s: Session, i: nat, n: nat): Option<Session>
    requires i < |s.pending|
  {
    var p := s.pending[i];
    if p.op.Write? && p.status.Waiting? && 0 < n && p.sent + n <= p.size <= |s.Flow(p.op.d).buf| then
      var r := s.Flow(p.op.d);
      Some(s.WithFlow(p.op.d, r.(given := r.given + r.buf[p.sent..p.sent + n]))
            .(pending := s.pending[i := p.(sent := p.sent + n)]))
    else None
  }

  function RunHandler(s: Session, i: nat): Option<Session>
    requires i < |s.pending|
  {
    if s.pending[i].status.Waiting? then None
    else Some(Handle(s.(pending := Removed(s.pending, i)), s.pending[i]))
  }

  function Step(s: Session, e: Event): Option<Session> {
    if e.i >= |s.pending| then None
    else
      match e
      case Completes(i, ok, data) => Complete(s, i, ok, data)
      case Transmits(i, n) => Transmit(s, i, n)
      case Handles(i) => RunHandler(s, i)
  }

  function Run(s: Session, events: seq<Event>): Option<Session>
    decreases |events|
  {
    if events == [] then Some(s)
    else
      match Step(s, events[0])
      case None => None
      case Some(next) => Run(next, events[1..])
  }

  // ----- the invariant -----

  predicate Uses(op: Op, d: Direction) {
    op == Connect || op == Read(d) || op == Write(d)
  }

  function UsesDirection(d: Direction): Pending -> nat {
    (p: Pending) => if Uses(p.op, d) then 1 else 0
  }

  /** The number of operations a direction has outstanding. */
  function Load(s: Session, d: Direction): nat {
    Sum(s.pending, UsesDirection(d))
  }

  /** How far the bytes of a direction have come, as told by its one operation. */
  ghost predicate InStep(r: Relay, p: Pending, d: Direction)
    requires |r.buf| == BUFFER_SIZE
  {
    if p.op == Connect then r.taken == r.given == []
    else if p.op == Read(d) then
      if p.status == Ready(Ok) then 0 < p.size <= BUFFER_SIZE && r.given + r.buf[..p.size] == r.taken
      else r.given == r.taken
    else
      && p.sent <= p.size <= BUFFER_SIZE
      && r.given + r.buf[p.sent..p.size] == r.taken
      && (p.status == Ready(Ok) ==> p.sent == p.size)
  }

  /**
   * At most one operation per direction is outstanding, the buffer holds exactly the bytes
   * still to be written, and what is out is a prefix of what came in.
   */
  ghost predicate FlowValid(r: Relay, ps: seq<Pending>, d: Direction) {
    && |r.buf| == BUFFER_SIZE
    && r.given <= r.taken
    && Sum(ps, UsesDirection(d)) <= 1
    && forall i | 0 <= i < |ps| && Uses(ps[i].op, d) :: InStep(r, ps[i], d)
  }

  /** Shut down means both sockets closed, and nothing waits on a closed socket. */
  ghost predicate SocketsValid(s: Session) {
    && s.clientOpen == s.backendOpen == !s.shuttingDown
    && (s.shuttingDown ==> forall i | 0 <= i < |s.pending| ::
          s.pending[i].status.Waiting? ==> s.pending[i].op == IdleTimer)
  }

  ghost predicate Calm(s: Session) {
    FlowValid(s.up, s.pending, Up) && FlowValid(s.down, s.pending, Down) && SocketsValid(s)
  }

  /** A session that has not shut down is busy in both directions. */
  ghost predicate Busy(s: Session) {
    !s.shuttingDown ==> Load(s, Up) == 1 && Load(s, Down) == 1
  }

  ghost predicate Valid(s: Session) {
    Calm(s) && Busy(s)
  }
}
