/** A session that only downloads, and how its idle timer cuts it off. */
module Downloads {
  import opened Words
  import opened Asio
  import opened Sessions
  import opened SessionLifetime
  import opened SessionDeadlines

  function Joined(chunks: seq<seq<Byte>>): seq<Byte> {
    if chunks == [] then [] else chunks[0] + Joined(chunks[1..])
  }

  predicate FitBuffer(chunks: seq<seq<Byte>>) {
    forall c | c in chunks :: 0 < |c| <= BUFFER_SIZE
  }

  /** Idling both ways, with all that came from the backend passed on. */
  predicate Relaying(s: Session, passed: seq<Byte>) {
    && !s.shuttingDown && s.clientOpen && s.backendOpen && s.idleTimeoutMs > 0
    && |s.down.buf| == BUFFER_SIZE && s.down.taken == s.down.given == passed
    && s.pending == [Pending(IdleTimer, Waiting, 0, 0), Pending(Read(Up), Waiting, 0, 0),
                     Pending(Read(Down), Waiting, 0, 0)]
  }

  lemma RearmingsCons(s: Session, e: Event, rest: seq<Event>)
    requires Step(s, e).Some? && Run(Step(s, e).value, rest).Some?
    ensures Run(s, [e] + rest) == Run(Step(s, e).value, rest)
    ensures Rearmings(s, [e] + rest) == (if Rearms(s, e) then 1 else 0) + Rearmings(Step(s, e).value, rest)
  {
    hide Step, Rearms;
    assert ([e] + rest)[1..] == rest && ([e] + rest)[0] == e;
  }

  /** The first three steps: the connect succeeds, is handled, and the aborted timer's handler runs. */
  lemma OpeningSteps(s: Session) returns (s1: Session, s2: Session, t: Session)
    requires s.idleTimeoutMs > 0 && s == StartedSession(s.backend, s.idleTimeoutMs)
    ensures Step(s, Completes(1, true, [])).Some? && s1 == Step(s, Completes(1, true, [])).value
    ensures Step(s1, Handles(1)).Some? && s2 == Step(s1, Handles(1)).value
    ensures Step(s2, Handles(0)).Some? && t == Step(s2, Handles(0)).value
    ensures Rearms(s1, Handles(1)) && !Rearms(s, Completes(1, true, [])) && !Rearms(s2, Handles(0))
    ensures Relaying(t, [])
  {
    s1 := Step(s, Completes(1, true, [])).value;
    s2 := Step(s1, Handles(1)).value;
    t := Step(s2, Handles(0)).value;
    assert s2.pending[0] == Pending(ConnectTimer, Ready(Aborted), 0, 0);
    assert t.pending == s2.pending[1..];
  }

  lemma DownloadStarts(backend: nat, idleTimeoutMs: nat) returns (t: Session)
    requires idleTimeoutMs > 0
    ensures Relaying(t, [])
    ensures forall rest | Run(t, rest).Some? ::
              var s, events := StartedSession(backend, idleTimeoutMs),
                [Completes(1, true, [])] + ([Handles(1)] + ([Handles(0)] + rest));
              && Run(s, events) == Run(t, rest) && Rearmings(s, events) == 1 + Rearmings(t, rest)
  {
    hide Step, Rearms, Relaying;
    var s := StartedSession(backend, idleTimeoutMs);
    var s1, s2;
    s1, s2, t := OpeningSteps(s);
    forall rest | Run(t, rest).Some?
      ensures var events := [Completes(1, true, [])] + ([Handles(1)] + ([Handles(0)] + rest));
              Run(s, events) == Run(t, rest) && Rearmings(s, events) == 1 + Rearmings(t, rest)
    {
      RearmingsCons(s2, Handles(0), rest);
      RearmingsCons(s1, Handles(1), [Handles(0)] + rest);
      RearmingsCons(s, Completes(1, true, []), [Handles(1)] + ([Handles(0)] + rest));
    }
  }

  function ChunkEvents(chunk: seq<Byte>, rest: seq<Event>): seq<Event> {
    [Completes(2, true, chunk)]
    + ([Handles(2)] + ([Transmits(2, |chunk|)] + ([Completes(2, true, [])] + ([Handles(2)] + rest))))
  }

  lemma DownloadOne(s: Session, passed: seq<Byte>, chunk: seq<Byte>) returns (t: Session)
    requires Relaying(s, passed) && 0 < |chunk| <= BUFFER_SIZE
    ensures Relaying(t, passed + chunk)
    ensures forall rest | Run(t, rest).Some? ::
              Run(s, ChunkEvents(chunk, rest)) == Run(t, rest)
              && Rearmings(s, ChunkEvents(chunk, rest)) == Rearmings(t, rest)
  {
    var s1 := Step(s, Completes(2, true, chunk)).value;
    assert s1.down.buf[..|chunk|] == chunk;
    var s2 := Step(s1, Handles(2)).value;
    assert s2.pending[2] == Pending(Write(Down), Waiting, |chunk|, 0);
    var s3 := Step(s2, Transmits(2, |chunk|)).value;
    assert s3.down.given == passed + chunk;
    var s4 := Step(s3, Completes(2, true, [])).value;
    t := Step(s4, Handles(2)).value;
    assert t.pending[..2] == s.pending[..2] && t.pending[2] == s.pending[2];
    hide Step;
    forall rest | Run(t, rest).Some?
      ensures Run(s, ChunkEvents(chunk, rest)) == Run(t, rest)
      ensures Rearmings(s, ChunkEvents(chunk, rest)) == Rearmings(t, rest)
    {
      RearmingsCons(s4, Handles(2), rest);
      RearmingsCons(s3, Completes(2, true, []), [Handles(2)] + rest);
      RearmingsCons(s2, Transmits(2, |chunk|), [Completes(2, true, [])] + ([Handles(2)] + rest));
      RearmingsCons(s1, Handles(2), [Transmits(2, |chunk|)] + ([Completes(2, true, [])] + ([Handles(2)] + rest)));
      RearmingsCons(s, Completes(2, true, chunk),
                    [Handles(2)] + ([Transmits(2, |chunk|)] + ([Completes(2, true, [])] + ([Handles(2)] + rest))));
    }
  }

  lemma {:induction false} DownloadAll(s: Session, passed: seq<Byte>, chunks: seq<seq<Byte>>)
    returns (events: seq<Event>)
    requires Relaying(s, passed) && FitBuffer(chunks)
    ensures Run(s, events).Some? && Relaying(Run(s, events).value, passed + Joined(chunks))
    ensures Rearmings(s, events) == 0
    decreases |chunks|
  {
    hide Relaying, Step, Rearms;
    if chunks == [] {
      assert passed + [] == passed;
      return [];
    }
    var t := DownloadOne(s, passed, chunks[0]);
    var rest := DownloadAll(t, passed + chunks[0], chunks[1..]);
    assert passed + chunks[0] + Joined(chunks[1..]) == passed + Joined(chunks);
    events := ChunkEvents(chunks[0], rest);
  }

  /**
   * A session that only downloads is cut off: whatever the backend sends, and however long, some
   * run delivers all of it to the client, rearming the idle timer only as it connects, and is then
   * shut down by that one wait.
   */
  lemma DownloadIsCutOff(backend: nat, idleTimeoutMs: nat, chunks: seq<seq<Byte>>) returns (events: seq<Event>)
    requires idleTimeoutMs > 0 && FitBuffer(chunks)
    ensures var start := StartedSession(backend, idleTimeoutMs);
            && Run(start, events).Some? && Rearmings(start, events) == 1
            && var s := Run(start, events).value;
               && !s.shuttingDown && s.down.given == Joined(chunks)
               && s.pending != [] && s.pending[0] == Pending(IdleTimer, Waiting, 0, 0)
               && var late := Run(s, [Completes(0, true, [])] + [Handles(0)]);
                  late.Some? && late.value.shuttingDown
  {
    var t := DownloadStarts(backend, idleTimeoutMs);
    var rest := DownloadAll(t, [], chunks);
    assert [] + Joined(chunks) == Joined(chunks);
    events := [Completes(1, true, [])] + ([Handles(1)] + ([Handles(0)] + rest));
    var s := Run(t, rest).value;
    RunCons(s, Completes(0, true, []), [Handles(0)]);
    RunOne(Step(s, Completes(0, true, [])).value, Handles(0));
  }
}
