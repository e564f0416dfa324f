# Bit Bridge engine, verified

A Dafny 4.11 model of the load-balancer engine under `core/`, of the IPv4 recogniser in
`lib/model/ServiceNode.cpp`, and of the closed-loop load driver in `bench/main.cpp`, with proofs about
them. `dafny verify dfyconfig.toml` checks everything.

Code that changes state in place is modelled in place: `Session`, `TcpProxy`, `HealthChecker`,
`ServiceState`, `ServicePool`, `ConsistentHashStrategy`, `P2CStrategy`, `Xoshiro256StarStar` and
`LoadContext` are classes with the source's fields and one method per member function or handler; loops are
loops. Each class method is proved to turn the object's value (`View()`) into what a function of the old
value says, and everything proved about whole runs is proved about those functions; `SessionObjects.Session.Run`
and `LoadDriverObjects.RunLoad` carry it back to the objects, driven by any run of events. A method named after a
lambda in the source (`OnClientRead`, `OnBackendWritten`, `OnRound`, `RunProbeConnect`, ...) is that lambda. The
table leaves out the methods that only start or hand on an operation; their contracts state their whole new state.

## The parts

- **Words and hashing** (`Words`, `FnvHash`, `Decimal`, `Labels`, `Hexadecimal`, `PublishedValues`). 64-bit words
  are integers below 2^64 with explicit wrap-around; exclusive or, shifts and rotations act on their binary digits,
  and are proved to be what they are in plain arithmetic. FNV-1a (the 64-bit variant in section 2 of draft-eastlake-fnv) folds over bytes. `PublishedValues` checks known values of all three algorithms
  and the constants as they appear in labels and addresses.
- **Consistent hashing** (`ConsistentHash`, `HashRing`, `Routing`). `HashRing` says what the ring is for
  without a ring: the healthy service owning the point at the least clockwise distance modulo 2^64 wins.
  `ConsistentHash` is the ring that is filled, sorted, scanned, searched and walked, and is proved to agree.
- **Power of two choices** (`PowerOfTwoChoices`, `Xoshiro256`). The selection reads a stream of draws, and
  the load bound holds for every stream in which the redraw loop ends, for the counts that the engine keeps
  (`EngineBalance`). The generator is proved a bijection.
- **One connection** (`Asio`, `Sessions`, `SessionSafety`, `SessionLifetime`, `SessionDeadlines`, `LateTimers`,
  `Downloads`, `LostBytes`, `SessionObjects`). The state holds both sockets, both buffers, every byte read and written so far, and the pending operations; an event
  is one completion, one partial transmission of a write, or one handler run to its end.
- **The whole engine** (`ServicePools`, `AtomicCounter`, `HealthChecks`, `TcpProxies`, `EventLoop` and
  their objects). `EventLoop` composes pool, live sessions, acceptor, probes and signal wait into one
  transition system, `EventLoopSafety` and `EventLoopShutdown` prove what holds of it, and `EventLoopTrace` reads
  sessions, results and health off the events of a run alone. One handler runs at a time, because one thread runs
  the loop (`core/main.cpp:106`);
  `AtomicCounter` separately treats the counter under any number of threads.
- **Companions** (`ServiceNodes`, `LoadDriver`, `LoadDriverObjects`).

## What is assumed of Boost.Asio

Written down in `Asio.dfy` and in the `Complete` and `Transmit` functions of `Sessions.dfy`:

- a started operation completes exactly once, at any later time and in any order;
- `close` and `cancel` (and `expires_after`) abort only operations that have not completed, so a success that
  is already queued still runs its handler as a success;
- an operation started on a closed socket completes with an error that is not `operation_aborted`;
- a successful read brings between 1 and 8192 bytes, into the front of the buffer;
- a write puts out its bytes in pieces, reading them from the buffer as it stands at that moment, and
  completes successfully only when all are out;
- a session lives exactly as long as some pending handler, or the running one, holds it.

Every configured address is assumed to parse, as the engine never calls `IsValid`.

## What the proofs found

- **Graceful shutdown holds only on a condition.** The repository's README (line 62) promises that the engine
  drains its connections before it exits. `OnAccept` ends the accept chain only on `operation_aborted`
  (`core/proxy/TcpProxy.cpp:46-54`). If the pending accept has already completed when the signal's handler
  runs, `AcceptNext` is called on the closed acceptor, fails with another error, and re-arms for ever.
  `EventLoopShutdown.DrainsExactlyIfAcceptStillWaits` proves that the engine can still run out of work if and
  only if the accept is still waiting at that moment, and `ShutdownCanFail` gives a run from the start in which it
  is not. That it *must* drain needs more, as `Stop` closes no session: `MustDrainExactly` proves that the runs
  after the signal are bounded if and only if the accept still waits and no session is live, that is, not shut down
  and with a socket operation that may still succeed. `LiveSessionKeepsEngineUp` is a run from the start to a state
  from which the engine can drain and need not.
- **`Shutdown` of a session is not final.** A queued success of the connect or of a write to the backend
  still calls `ReadFromClient`, which arms the idle timer again; the next `Shutdown` returns early and does
  not cancel it. "No timer is armed after shutdown" is therefore false. `LateTimers.ArmedAgainExactly` gives its
  condition over all runs: an idle wait can be running again after `Shutdown` if and only if there is an idle
  timeout and such a success is queued as `Shutdown` runs. Draining is bounded all the same
  (`SessionLifetime.DrainsInBoundedTime`).
- **A connect timeout can end a session that connected.** Cancelling the timer does not reach a timeout whose
  handler is already queued. `LateTimers.ConnectTimeoutReachesConnected` proves, over all runs, that the connect
  timer can still end the session once the connect's handler has run if and only if its timeout was queued before.
- **Only the client's traffic refreshes the idle deadline.** Over any run the idle waits started are exactly the
  connect and the completed writes to the backend (`SessionDeadlines.IdleWaitsAccountedFor`), so a session that only
  downloads is cut off, whatever it has been sent (`Downloads.DownloadIsCutOff`).
- **An end of stream on one side discards what is on its way to it.** Over the life of a session the bytes read are
  those written out followed by those a failing write had left (`LostBytes.EveryByteAccountedFor`): all arrive if
  and only if no write fails short. `EndOfStreamLosesReply` is a run that loses a whole reply.
- **An unhealthy threshold of 0 acts like 1** (`HealthChecks.EffectiveThreshold`).

## Model

| member | source | states |
|---|---|---|
| HashRing.WinnerUnique | core/routing/ConsistentHashStrategy.cpp:42-53 | On a collision-free ring the key and the set of healthy names determine the service: there is only one nearest owner |
| HashRing.WinnerAmongFewer | core/routing/ConsistentHashStrategy.cpp:48-53 | A service that wins a key keeps it when others go down |
| HashRing.MovesOnlyForCause | core/routing/ConsistentHashStrategy.cpp:42-53 | Between any two sets of healthy services, a key changes service only if its old one went down or its new one came up |
| HashRing.DownMovesOnlyItsKeys | core/routing/ConsistentHashStrategy.cpp:48-53 | One service going down moves exactly the keys it had |
| HashRing.UpTakesOnlyForItself | core/routing/ConsistentHashStrategy.cpp:48-53 | One service coming up moves exactly the keys it takes for itself |
| HashRing.DownThenUpRestores | core/routing/ConsistentHashStrategy.cpp:48-53 | Going down and coming back restores every assignment |
| HashRing.StaysThroughHistory | core/routing/ConsistentHashStrategy.cpp:48-53 | Over any sequence of health changes, a key whose service stays up and which no riser wins never moves |
| HashRing.ClockwiseIsModular | core/routing/ConsistentHashStrategy.cpp:42-45 | The distance the definition uses is (point - key) modulo 2^64 |
| ConsistentHash.Fill | core/routing/ConsistentHashStrategy.cpp:13-21 | The filling loops append exactly the 150 points of each service, service by service |
| ConsistentHash.SortByHash | core/routing/ConsistentHashStrategy.cpp:23 | Sorting by hash gives an ordered rearrangement |
| ConsistentHash.FindCollision | core/routing/ConsistentHashStrategy.cpp:25-31 | The adjacent-pair scan reports the first repeated hash of a sorted ring, and none exactly when all hashes strictly increase |
| ConsistentHash.SortAndCheck | core/routing/ConsistentHashStrategy.cpp:23-31 | Sorting then scanning finds a collision exactly when two of the hashes filled in are equal anywhere |
| ConsistentHash.PermutationOfHashes | core/routing/ConsistentHashStrategy.cpp:23 | Rearranging virtual nodes keeps the bag of their hashes |
| ConsistentHash.ConsistentHashStrategy.Create | core/routing/ConsistentHashStrategy.cpp:13-32 | Construction succeeds exactly when all label hashes are distinct, with a strictly sorted ring of exactly those points; otherwise it fails with the first colliding position of a sorted ring |
| ConsistentHash.DistinctHashesMeanCollisionFree | core/routing/ConsistentHashStrategy.cpp:16-31 | All label hashes are distinct exactly when the names are distinct and no two labels share a point |
| ConsistentHash.EqualNamesCollide | core/routing/ConsistentHashStrategy.cpp:16-31 | Two services of one name always make construction fail |
| ConsistentHash.RingContents | core/routing/ConsistentHashStrategy.cpp:13-23 | However it was sorted, the ring holds the 150 points of every service under that service, and nothing else |
| ConsistentHash.LowerBound | core/routing/ConsistentHashStrategy.cpp:42-45 | Binary search splits the ring into the hashes below the key and the rest |
| ConsistentHash.WalkVisitsEachOnce | core/routing/ConsistentHashStrategy.cpp:48-49 | The wrapping walk meets every position once |
| ConsistentHash.WalkIsClockwise | core/routing/ConsistentHashStrategy.cpp:42-49 | From the lower bound on, the walk meets points in order of clockwise distance, across the wrap |
| ConsistentHash.WalkStopsAtNearest | core/routing/ConsistentHashStrategy.cpp:48-53 | The first healthy owner met is the one at the least clockwise distance among all healthy points |
| ConsistentHash.WalkMissesNone | core/routing/ConsistentHashStrategy.cpp:48-55 | A whole walk without success means that no owner is healthy |
| ConsistentHash.ConsistentHashStrategy.WalkToHealthy | core/routing/ConsistentHashStrategy.cpp:48-53 | The walk loop stops at the first healthy owner and skips only unhealthy ones |
| ConsistentHash.ConsistentHashStrategy.SelectService | core/routing/ConsistentHashStrategy.cpp:34-56 | A lookup returns the nearest healthy owner; PoolEmpty and NoHealthyServices each exactly when due |
| ConsistentHash.NearestIsWinner | core/routing/ConsistentHashStrategy.cpp:40-53 | What the ring answers is the winner of the ring-free definition over the healthy names |
| ConsistentHash.SkippingEqualsRebuilding | core/routing/ConsistentHashStrategy.cpp:13-53 | Skipping unhealthy owners chooses the name that a ring built afresh from the healthy services, in any order, would choose; and that ring builds |
| ConsistentHash.SkippingFailsLikeRebuilding | core/routing/ConsistentHashStrategy.cpp:13-55 | The lookup finds no healthy owner exactly when the rebuilt ring would have no services |
| ConsistentHash.NoHealthyOwnerMeansNoneHealthy | core/routing/ConsistentHashStrategy.cpp:36-55 | As every service owns a point, the ring is empty exactly for an empty pool, and no healthy owner means no healthy service |
| ConsistentHash.LookupAnswers | core/routing/ConsistentHashStrategy.cpp:36-55 | On its own pool a lookup fails exactly as the other strategy does, and else picks a healthy service |
| FnvHash.Hash64 | core/routing/FnvHash.hpp:11-18 | The byte loop computes the FNV-1a fold modulo 2^64 |
| FnvHash.PrimeInvertible | core/routing/FnvHash.hpp:9-15 | Multiplying by the prime is undone by its inverse modulo 2^64 |
| FnvHash.AbsorbInjective | core/routing/FnvHash.hpp:14-15 | One round with a given byte never merges two hash states |
| FnvHash.FoldInjective | core/routing/FnvHash.hpp:13-16 | Absorbing a common tail never merges two hash states |
| FnvHash.PrimeSpreads | core/routing/FnvHash.hpp:9-15 | The prime throws words less than 256 apart further apart than one byte can bridge |
| FnvHash.TwoRoundsInjective | core/routing/FnvHash.hpp:13-16 | From one state, two rounds tell all 65536 pairs of bytes apart |
| FnvHash.ShortDifferencesNeverCollide | core/routing/FnvHash.hpp:11-18 | Strings of one length that differ only within two adjacent positions have equal hashes only if they are equal |
| Labels.LabelInjective | core/routing/ConsistentHashStrategy.cpp:18-20 | The label "name#v" determines name and number, even when names contain a hash sign |
| Labels.NearbyLabelsNeverCollide | core/routing/ConsistentHashStrategy.cpp:18-20 | Labels of one service that differ only in the last two digits never share a point |
| Labels.ServiceLabelsOfOneLengthNeverCollide | core/routing/ConsistentHashStrategy.cpp:18-20 | Among the 150 labels of a service, two of the same length never share a point |
| Decimal.ValueOfDigits | core/routing/ConsistentHashStrategy.cpp:19 | Decimal notation denotes the number printed |
| Decimal.DigitsOfValue | lib/model/ServiceNode.cpp:38-53 | Digits without a leading zero are the notation of their value |
| Decimal.NoLeadingZero | lib/model/ServiceNode.cpp:41-43 | A notation starts with 0 only for zero itself |
| Decimal.DigitBytesInjective | core/routing/ConsistentHashStrategy.cpp:19 | Printed numbers are equal only if the numbers are |
| Hexadecimal.XorByDigits | core/routing/FnvHash.hpp:14 | Exclusive or of words written in hexadecimal, digit by digit |
| PublishedValues.HashOfNothing | core/routing/FnvHash.hpp:8-12 | The hash of the empty string is the published offset basis |
| PublishedValues.HashOfLetter | core/routing/FnvHash.hpp:11-18 | The hash of the letter a is the published 0xaf63dc4c8601ec8c |
| PublishedValues.LabelsInAscii | core/routing/ConsistentHashStrategy.cpp:18-20 | The labels of a service named a, as ASCII bytes: a#0 and a#149 |
| PublishedValues.LoopbackInAscii | lib/model/ServiceNode.cpp:32-58 | The dotted form of 127, 0, 0, 1, as ASCII bytes |
| PublishedValues.SplitMixOutput | core/routing/Xoshiro256.cpp:29-34 | The first output for the seed 1234567 is the published 6457827717110365317 |
| PublishedValues.SeededWords | core/routing/Xoshiro256.cpp:3-8 | The k-th word of a seed is the scrambled sum of the seed and k times the golden gamma, modulo 2^64 |
| PublishedValues.XoshiroOutputs | core/routing/Xoshiro256.cpp:10-23 | From the state 1, 2, 3, 4: the published first two outputs, 11520 and 0, and the state in between |
| Words.XorByteKeepsHighBits | core/routing/FnvHash.hpp:14 | Exclusive or with a byte leaves everything above the low byte alone |
| Words.XorTwice | core/routing/FnvHash.hpp:14 | Exclusive or is its own inverse |
| Words.XorAddsDigits | core/routing/FnvHash.hpp:14 | Exclusive or adds the binary digits of its operands modulo 2 |
| Words.ShrDivides | core/routing/Xoshiro256.cpp:26-33 | A right shift divides by a power of two |
| Words.ShlMultiplies | core/routing/Xoshiro256.cpp:12 | A left shift multiplies by a power of two modulo 2^64 |
| Words.RotateBack | core/routing/Xoshiro256.cpp:25-27 | Rotating the rest of the way round restores the word |
| Words.RotateAdds | core/routing/Xoshiro256.cpp:25-27 | Rotating left is multiplying by a power of two modulo 2^64 and adding what was shifted out |
| Words.MixDownInvertible | core/routing/Xoshiro256.cpp:31-33 | x ^ (x >> k) is a bijection for the shifts used |
| Words.MixUpInvertible | core/routing/Xoshiro256.cpp:12-19 | x ^ (x << k) is a bijection for the shift used |
| Xoshiro256.SplitMix64 | core/routing/Xoshiro256.cpp:29-34 | The seeding step advances by the golden gamma and returns the scrambled new state |
| Xoshiro256.OddFactorsInvertible | core/routing/Xoshiro256.cpp:31-32 | Both odd multipliers are undone by their inverses modulo 2^64, both ways round |
| Xoshiro256.ScrambleInvertible | core/routing/Xoshiro256.cpp:31-33 | The output function of SplitMix64 is a bijection, with the inverse given |
| Xoshiro256.Xoshiro256StarStar.constructor | core/routing/Xoshiro256.cpp:3-8 | The state is four successive SplitMix64 outputs of the seed |
| Xoshiro256.Xoshiro256StarStar.Generate | core/routing/Xoshiro256.cpp:10-23 | The in-place updates make one step of the generator and return its output |
| Xoshiro256.OutputIsArithmetic | core/routing/Xoshiro256.cpp:11 | The output in plain arithmetic: with x = 5 s1, it is 9 (128 x + x / 2^57), modulo 2^64 |
| Xoshiro256.OutputTellsSecondWords | core/routing/Xoshiro256.cpp:11 | Two states give equal outputs exactly when their second words are equal |
| Xoshiro256.PreviousUndoesNext | core/routing/Xoshiro256.cpp:12-20 | The 256-bit step can be run backwards |
| Xoshiro256.NextUndoesPrevious | core/routing/Xoshiro256.cpp:12-20 | Every state is the next one of some state: the step is a bijection |
| Xoshiro256.NextFixesZero | core/routing/Xoshiro256.cpp:12-20 | The all-zero state is a fixed point |
| Xoshiro256.AfterInjective | core/routing/Xoshiro256.cpp:10-23 | Any number of steps keeps different states different |
| Xoshiro256.SeedingIsInjective | core/routing/Xoshiro256.cpp:3-8 | Different seeds give different states, and the four words of a state all differ |
| Xoshiro256.NeverStuckAtZero | core/routing/Xoshiro256.cpp:3-23 | From every seed, after any number of steps, the state is not the zero fixed point |
| Xoshiro256.DifferentSeedsNeverMeet | core/routing/Xoshiro256.cpp:3-23 | Generators with different seeds never share a state at the same step |
| PowerOfTwoChoices.P2CStrategy.CollectHealthy | core/routing/P2CStrategy.cpp:47-53 | The scan loop collects the healthy indices in order |
| PowerOfTwoChoices.HealthyListContents | core/routing/P2CStrategy.cpp:47-53 | That list holds every healthy index, once |
| PowerOfTwoChoices.HealthyListIncreases | core/routing/P2CStrategy.cpp:47-53 | The list is increasing and in range |
| PowerOfTwoChoices.P2CStrategy.SelectService | core/routing/P2CStrategy.cpp:41-74 | Each error exactly when due; one healthy service is returned without drawing; else one of the two healthy services drawn first that differ, with no more active connections than the other, the first drawn if they have equally many, and only those draws are used up |
| PowerOfTwoChoices.SelectionIsADraw | core/routing/P2CStrategy.cpp:62-67 | What the redraw loop ends with are two different healthy services |
| PowerOfTwoChoices.CountingKeepsBalance | core/routing/P2CStrategy.cpp:69-73 | Counting a session on the lighter of two keeps the two heaviest loads within one of each other |
| PowerOfTwoChoices.RunKeepsBalance | core/proxy/TcpProxy.cpp:59-81 | Any run of accepts keeps that balance, whatever is drawn and however health flips in between |
| PowerOfTwoChoices.EverySessionCounted | core/proxy/TcpProxy.cpp:81 | The loads add up to the sessions accepted |
| PowerOfTwoChoices.LoadBound | core/proxy/TcpProxy.cpp:59-81 | From an idle pool no service ever holds more than half of the sessions, rounded up |
| EngineBalance.PickIsACount | core/routing/P2CStrategy.cpp:62-73 | Such an answer, counted in the pool, is a draw counted on the lighter of the two |
| EngineBalance.EventCounts | core/proxy/TcpProxy.cpp:59-82 | In a run that routes so and in which no session ends, each event of the engine counts one connection per session started, and none otherwise |
| EngineBalance.GrowingRunIsRunOfAccepts | core/proxy/TcpProxy.cpp:59-82 | Such a run of the engine, health checks and all, is a run of accepts, one for each session it starts |
| EngineBalance.EngineLoadBound | core/proxy/TcpProxy.cpp:59-82 | So in the pool of the engine itself, with n sessions up, no active count exceeds half of n, rounded up |
| PowerOfTwoChoices.BoundIsTight | core/routing/P2CStrategy.cpp:69-73 | Two services do reach that bound, for every number of sessions |
| AtomicCounter.EveryRunLinearises | core/state/ServiceState.cpp:57-70 | Any interleaving of increments and decrement loops, spurious failures included, leaves the counter as some order of atomic increments and saturating decrements does |
| AtomicCounter.EachCallTakesEffectOnce | core/state/ServiceState.cpp:57-70 | In that order every call appears exactly once, at a moment between its start and its return |
| AtomicCounter.Conservation | core/state/ServiceState.cpp:57-70 | Value = start + increments - successful decrements, so nothing is lost and nothing underflows |
| AtomicCounter.EmptyHandedOnlyAtZero | core/state/ServiceState.cpp:63-69 | A decrement returns without decrementing exactly when it meets zero |
| AtomicCounter.FailedExchangeMeansProgress | core/state/ServiceState.cpp:63-68 | An exchange that is not spurious fails only if another thread changed the counter meanwhile |
| AtomicCounter.IdleMayCall | core/state/ServiceState.cpp:57-62 | An idle thread can call either way, and an increment takes effect at once |
| AtomicCounter.AccessBringsUpToDate | core/state/ServiceState.cpp:61-69 | An access of a thread in the loop ends its call, rightly, or leaves it holding what the cell holds; a failed exchange reloads |
| AtomicCounter.TwoExchangesEnd | core/state/ServiceState.cpp:63-68 | However far behind, one or two exchanges that are not spurious failures end the call, with the cell one lower or still zero |
| AtomicCounter.AloneEnds | core/state/ServiceState.cpp:61-70 | From every state a thread left alone ends its call, through any spurious failures, moving no other thread |
| ServicePools.ServiceState.constructor | core/state/ServiceState.cpp:3-5 | A new service is idle, healthy and without failures |
| ServicePools.ServiceState.CompareExchangeWeak | core/state/ServiceState.cpp:64-66 | Exchanges only on agreement, may fail spuriously, and reports the value seen |
| ServicePools.ServiceState.DecrementConnections | core/state/ServiceState.cpp:61-70 | The retry loop takes one connection off, or none from zero, after any number of spurious failures |
| ServicePools.ServicePool.constructor | core/state/ServicePool.cpp:3-8 | One new state object per configured node, in order |
| ServicePools.ServicePool.GetHealthyCount | core/state/ServicePool.cpp:16-24 | The loop counts the healthy services |
| SessionSafety.StartIsValid | core/proxy/Session.cpp:26-45 | A started session satisfies the invariant: one operation per direction, bytes in step |
| SessionSafety.ShutdownKeeps | core/proxy/Session.cpp:109-137 | Shutting down keeps it wherever the chains stand, closes both sockets and leaves nothing waiting |
| SessionSafety.ReadFromKeeps | core/proxy/Session.cpp:60-107 | Reading again is safe whenever a direction is free and all its bytes are out |
| SessionSafety.OnConnectedKeeps | core/proxy/Session.cpp:47-58 | The connect handler keeps the invariant on success and failure |
| SessionSafety.OnReadKeeps | core/proxy/Session.cpp:72-85 | The read handlers keep it: what they start writing is exactly what was just read |
| SessionSafety.OnWrittenKeeps | core/proxy/Session.cpp:79-105 | The write handlers keep it |
| SessionSafety.HandlerKeepsValid | core/proxy/Session.cpp:35-107 | Every handler, whichever is queued, keeps the invariant |
| SessionSafety.CompletionKeepsValid | core/proxy/Session.cpp:34-107 | Every completion, good or bad, keeps it |
| SessionSafety.TransmissionKeepsValid | core/proxy/Session.cpp:77-105 | Every piece a write puts on the wire keeps it |
| SessionSafety.ReadTakesUpToBuffer | core/proxy/Session.cpp:70-72 | A read can bring any number of bytes from 1 to 8192, and no other |
| SessionSafety.StepMovesItsBytes | core/proxy/Session.cpp:70-105 | An event adds to what a direction has read the data it brings, and to what it has written as many bytes as it sends |
| SessionSafety.RunMovesItsBytes | core/proxy/Session.cpp:60-107 | Over every run a direction has read exactly the data its good reads brought, in order |
| SessionSafety.RunKeepsValid | core/proxy/Session.cpp:26-137 | Hence every run keeps it, in any order of completions and handlers, before and after shutdown |
| SessionSafety.BytesArriveInOrder | core/proxy/Session.cpp:60-107 | In each direction, over all chunkings and interleavings, the bytes written out are a prefix of the bytes that the events of the run brought in, as long as the events sent |
| SessionSafety.NoRefillDuringWrite | core/proxy/Session.cpp:60-107 | No read is pending into a buffer from which a write is pending |
| SessionSafety.DestroyedOnlyAfterShutdown | core/proxy/Session.cpp:22-24 | A session runs out of holders, and is destroyed, only after it shut down |
| SessionLifetime.EveryEventUsesWork | core/proxy/Session.cpp:47-137 | After shutdown every event lowers a weighted count of pending operations, also those that restart reads and re-arm the idle timer |
| SessionLifetime.DeadEventUsesWork | core/proxy/Session.cpp:22-137 | The same holds for every session that is not live: shut down, or with no socket operation that may still succeed |
| SessionLifetime.DrainsInBoundedTime | core/proxy/Session.cpp:22-137 | So every run of a session that is not live is finite, with a bound known at its start |
| SessionLifetime.LiveEvent | core/proxy/Session.cpp:47-107 | A live session has an event that keeps it live |
| SessionLifetime.BoundedExactlyIfNotLive | core/proxy/Session.cpp:22-137 | The runs of a session are bounded if and only if it is not live |
| SessionLifetime.NeverStuck | core/proxy/Session.cpp:30-107 | While anything is pending some event is enabled |
| SessionLifetime.RunToEnd | core/proxy/Session.cpp:22-137 | A session that shut down can always reach its destruction |
| SessionLifetime.CanAlwaysEnd | core/proxy/Session.cpp:22-137 | From every reachable state some run shuts the session down and ends it |
| SessionDeadlines.HandlerMoves | core/proxy/Session.cpp:35-107 | What each handler does to timers and deadlines |
| SessionDeadlines.OnlyClientTrafficRefreshesIdle | core/proxy/Session.cpp:60-85 | An idle wait is started by exactly the connect and each completed write to the backend; backend traffic never refreshes it |
| SessionDeadlines.IdleWaitsAccountedFor | core/proxy/Session.cpp:60-85 | Over any run the idle waits left and handled are those at its start and one for each connect and each completed write to the backend |
| SessionDeadlines.StartIsGuarded | core/proxy/Session.cpp:34-39 | A started session is guarded by its connect timer |
| SessionDeadlines.HandlerKeepsGuarded | core/proxy/Session.cpp:35-107 | Handlers keep a session guarded: at most one idle wait runs, and the connect timer runs only while connecting |
| SessionDeadlines.RunKeepsGuarded | core/proxy/Session.cpp:26-137 | Every run keeps a session guarded |
| SessionDeadlines.DeadlineEndsSession | core/proxy/Session.cpp:34-68 | No session hangs: while connecting, or with an idle timeout, its own deadline shuts it down without help from either peer |
| LateTimers.ArmedAgainExactly | core/proxy/Session.cpp:60-113 | Over all runs from where a session is shut down, an idle wait can be running again if and only if there is an idle timeout and a success of the connect or of a write to the backend is queued |
| LateTimers.ArmedAfterShutdown | core/proxy/Session.cpp:47-68 | After shutdown one event leaves the idle timer armed exactly if the event restarts a client read, or if the timer was armed and the event is no completion |
| LateTimers.TimerArmedAfterShutdown | core/proxy/Session.cpp:47-68 | A concrete run in which the idle timer is armed after shutdown |
| LateTimers.ConnectDeadlinesNeverGrow | core/proxy/Session.cpp:34-58 | No event of a started session arms a connect timer |
| LateTimers.ConnectedTimesOutExactly | core/proxy/Session.cpp:34-58 | Over all runs, a session no longer connecting can be ended by its connect timer if and only if that timer has run out and its handler is queued |
| LateTimers.ConnectTimeoutReachesConnected | core/proxy/Session.cpp:34-58 | As a good connect is handled: over all runs from there the connect timer can end the session if and only if its timeout was queued beside the connect |
| LateTimers.StaleConnectTimeoutShutsDown | core/proxy/Session.cpp:34-58 | A concrete run in which a connect timeout ends a session that had connected |
| Downloads.DownloadOne | core/proxy/Session.cpp:89-107 | A chunk from the backend is read, written out to the client in full and the next one awaited, with no idle wait started |
| Downloads.DownloadIsCutOff | core/proxy/Session.cpp:60-107 | Whatever chunks the backend sends, some run delivers them all, starts one idle wait, at the connect, and is then shut down by it |
| LostBytes.HandlerAccounts | core/proxy/Session.cpp:72-105 | A handler loses what a failing write of its direction had left to send, and nothing else |
| LostBytes.EveryByteAccountedFor | core/proxy/Session.cpp:22-107 | In each direction, over the life of a session: bytes brought in = bytes written out + bytes left by a failing write, and none is missing if and only if no write fails short |
| LostBytes.EndOfStreamLosesReply | core/proxy/Session.cpp:72-106 | For every reply, a run in which it is read in full from the backend, the client ends its stream, and nothing of it is written |
| SessionObjects.Session.Destroy | core/proxy/Session.cpp:22-24 | Destruction gives one connection back to the backend |
| SessionObjects.Session.OnConnected | core/proxy/Session.cpp:47-58 | Acts as the connect handler of the state machine |
| SessionObjects.Session.ReadFromClient | core/proxy/Session.cpp:60-71 | Re-arms the idle timer if there is one, then reads from the client |
| SessionObjects.Session.Shutdown | core/proxy/Session.cpp:109-137 | Once only, the four cancels and closes in turn abort every operation still waiting |
| SessionObjects.Session.RunHandler | core/proxy/Session.cpp:35-107 | Running any queued handler on the object is the handler step of the state machine |
| SessionObjects.Session.Receive | core/proxy/Session.cpp:70-92 | Bytes read land in place in the front of the buffer, the rest of it unchanged |
| SessionObjects.Session.Complete | core/proxy/Session.cpp:34-107 | A completion on the object, with either buffer filled in place, is the completion step of the state machine |
| SessionObjects.Session.Transmit | core/proxy/Session.cpp:77-98 | A write sends what its buffer holds at that moment, as the state machine says |
| SessionObjects.Session.Run | core/proxy/Session.cpp:26-137 | Driven by any run of events the object goes through the states of the state machine; it has read what the events brought, and what it has written out is a prefix of that, both ways |
| HealthChecks.RoundProbesEveryService | core/health/HealthChecker.cpp:41-45 | A round probes every service once, in order |
| HealthChecks.TrailingMeansLastAllFailed | core/health/HealthChecker.cpp:47-58 | n failures in a row are counted exactly when the last n results exist and are all failures |
| HealthChecks.NewServiceReflects | core/state/ServiceState.cpp:3-5 | A new service agrees with having had no results: it counts as healthy |
| HealthChecks.ResultKeepsReflecting | core/health/HealthChecker.cpp:47-65 | A further result keeps counter and flag in agreement with the results so far, for every threshold, 0 included |
| HealthCheckerObjects.HealthChecker.Stop | core/health/HealthChecker.cpp:22-25 | Marks the checker stopped and aborts the round still waited for |
| HealthCheckerObjects.HealthChecker.OnRound | core/health/HealthChecker.cpp:32-38 | Probes all and schedules again, unless aborted or stopped |
| HealthCheckerObjects.HealthChecker.ProbeAll | core/health/HealthChecker.cpp:41-45 | The loop starts one probe per service, in order |
| HealthCheckerObjects.HealthChecker.RunProbeTimer | core/health/HealthChecker.cpp:79-88 | A probe timeout closes the socket, which fails a connect still waiting |
| HealthCheckerObjects.HealthChecker.RunProbeConnect | core/health/HealthChecker.cpp:91-95 | The connect handler cancels the timeout and reports the result to that service only, as the handler of the engine model does |
| HealthCheckerObjects.HealthChecker.OnProbeResult | core/health/HealthChecker.cpp:47-71 | Counts failures up to the threshold, or clears them, marks the service healthy and closes the probe's socket |
| TcpProxyObjects.TcpProxy.Stop | core/proxy/TcpProxy.cpp:30-36 | Closes the acceptor, aborting an accept still waiting |
| TcpProxyObjects.TcpProxy.Route | core/proxy/TcpProxy.cpp:57-59 | The strategy, whichever it is, answers with each error exactly when due and else a healthy service: the ring with the nearest one to the hash of the key, power of two choices with one of the two drawn, no busier than the other, the first on a tie, using up just those draws |
| TcpProxyObjects.TcpProxy.StartSession | core/proxy/TcpProxy.cpp:72-82 | A new session is counted on the service chosen and on no other, and starts connecting |
| TcpProxyObjects.TcpProxy.OnAccept | core/proxy/TcpProxy.cpp:45-85 | Ends the chain on an abort; else accepts again, after routing the client key by the strategy and starting a session counted on the service it answered, if it did |
| EventLoopSafety.InitiallyValid | core/main.cpp:61-94 | The engine as started satisfies the invariant |
| EventLoop.InitialIsAsStarted | core/main.cpp:92-96 | The initial state is that of a proxy and a checker just started |
| EventLoopSafety.CountingKeepsCounts | core/proxy/TcpProxy.cpp:72-82 | A session counted and started keeps every count equal to the live sessions |
| EventLoopSafety.SessionStepKeepsCounts | core/proxy/Session.cpp:22-24 | Every session event keeps each count equal to the live sessions, up to the destruction that gives the count back; the count was positive before |
| EventLoopSafety.ReportKeepsHealth | core/health/HealthChecker.cpp:47-71 | Every probe result, from overlapping rounds in any order, keeps health in agreement with the results |
| EventLoopSafety.RoundKeepsChecker | core/health/HealthChecker.cpp:32-45 | A round adds one fresh probe per service and arms exactly one next round; a stopped checker adds none |
| EventLoopSafety.AcceptKeepsValid | core/proxy/TcpProxy.cpp:45-85 | Every accept handler keeps the invariant |
| EventLoopSafety.SignalKeepsValid | core/main.cpp:81-90 | The signal handler keeps the invariant |
| EventLoopSafety.EventKeepsValid | core/main.cpp:81-106 | Every event of the engine keeps the invariant |
| EventLoopSafety.RunKeepsValid | core/main.cpp:106 | Every run of the engine keeps the invariant |
| EventLoopSafety.ActiveCountsAreLiveSessions | core/proxy/TcpProxy.cpp:72-82 | In every reachable state each active count is the number of live sessions bound to that service |
| EventLoopSafety.DecrementGuardNeverFires | core/state/ServiceState.cpp:61-70 | The guard against decrementing zero never fires: every destruction takes exactly one off |
| EventLoopSafety.HealthFollowsResults | core/health/HealthChecker.cpp:47-71 | In every reachable state the failure count is the trailing run of failures, and a service is healthy exactly when its last max(1, threshold) results are not all failures |
| EventLoopSafety.ProbeStepsKeepValid | core/health/HealthChecker.cpp:47-95 | Each step of a probe leaves it ending: a timeout aborts a waiting connect by closing its socket, and a result aborts the timeout |
| EventLoopSafety.NewSessionsGoToHealthy | core/proxy/TcpProxy.cpp:45-84 | A good accept starts one session exactly if some service is healthy, on a healthy one, counted there and nowhere else; any other accept starts none |
| EventLoopTrace.EventKeepsAcceptsTraced | core/proxy/TcpProxy.cpp:38-54 | At every event, the accept pending has completed well exactly if the events say so |
| EventLoopTrace.EventKeepsProbesTraced | core/health/HealthChecker.cpp:41-95 | At every event, the k-th probe is of service k modulo n, and its connect has completed as the events say, unless it was timed out |
| EventLoopTrace.EventKeepsResultsTraced | core/health/HealthChecker.cpp:47-95 | At every event, the results reported are those the events tell |
| EventLoopTrace.RunKeepsTraced | core/main.cpp:81-106 | Every run keeps state and events in step in all of these |
| EventLoopTrace.HealthFollowsOutcomes | core/health/HealthChecker.cpp:47-95 | In every reachable state, told by the events alone: the failure count is the trailing run of probes whose connect did not complete well, in the order handled, and a service is healthy exactly when the last max(1, threshold) of them are not all such |
| EventLoopTrace.CheckingGoesOn | core/health/HealthChecker.cpp:27-39 | If checks are enabled, the next round is on its way until the signal is handled; else the checker is stopped |
| EventLoopTrace.SessionsAreAccountedFor | core/proxy/TcpProxy.cpp:45-85 | Over every run, sessions up + sessions ended = accepts that completed well and were routed to a service |
| EventLoopTrace.EveryOutcomeIsPossible | core/main.cpp:106 | Whatever waits may complete, well or badly, and whatever is ready may be handled |
| EventLoopShutdown.OutOfWorkMeansAllReleased | core/main.cpp:106 | The loop runs out of work only with every active count at zero |
| EventLoopShutdown.ClosingStepAddsNothing | core/proxy/TcpProxy.cpp:30-48 | Once stopped with the accept aborted, each session left is one that was there, some steps further on; no probe is added, and each result uses up a probe in flight |
| EventLoopShutdown.NothingNewAfterStop | core/health/HealthChecker.cpp:22-39 | So over any run after the stop each session left is one that was there at its start, there are no new probes, and the later results are at most those in flight |
| EventLoopShutdown.ClosingStepUsesWork | core/main.cpp:81-106 | With no session live, every event uses up work |
| EventLoopShutdown.DrainsInBoundedTime | core/main.cpp:81-106 | So from then on every run is finite, with a bound known at its start |
| EventLoopShutdown.EndSession | core/proxy/Session.cpp:22-24 | A run that ends a session lifts to the engine, removing that session and nothing else |
| EventLoopShutdown.CanDrain | core/main.cpp:81-106 | From every such state some run drains the engine completely |
| EventLoopShutdown.LingersForever | core/proxy/TcpProxy.cpp:45-54 | If an accept was not aborted by the stop, no run ever runs out of work |
| EventLoopShutdown.DrainsExactlyIfAcceptStillWaits | core/proxy/TcpProxy.cpp:30-54 | The engine can drain after the signal if and only if the pending accept had not completed when Stop ran |
| EventLoopShutdown.ShutdownCanFail | core/proxy/TcpProxy.cpp:45-54 | A run from the start, for every configuration, after which the engine can never drain |
| EventLoopShutdown.StuckMeansDrained | core/main.cpp:106 | The loop is stuck only when it has drained, so a run that cannot go on has drained |
| EventLoopShutdown.LiveRun | core/proxy/Session.cpp:47-107 | A live session keeps the engine running for as many events as one likes |
| EventLoopShutdown.ClosingBoundedExactlyIfNoneLive | core/main.cpp:81-106 | With the accept aborted, the runs of the engine are bounded if and only if no session is live |
| EventLoopShutdown.MustDrainExactly | core/main.cpp:81-106 | The runs after the signal are bounded, and so all drain, if and only if the accept still waits and no session is live |
| EventLoopShutdown.LiveSessionKeepsEngineUp | core/main.cpp:81-106 | A run from the start to a state from which the engine can drain and need not |
| ServiceNodes.ParseNumber | lib/model/ServiceNode.cpp:51 | Digits are read as the number they denote |
| ServiceNodes.CheckToken | lib/model/ServiceNode.cpp:38-53 | The checks on one token accept exactly the printed numbers up to 255 |
| ServiceNodes.TokensJoin | lib/model/ServiceNode.cpp:37 | Splitting at dots loses nothing but a final dot |
| ServiceNodes.TokensOfDotted | lib/model/ServiceNode.cpp:37 | Splitting a printed address gives back its four numbers |
| ServiceNodes.DottedInjective | lib/model/ServiceNode.cpp:32-58 | The four numbers of an address are unique |
| ServiceNodes.DottedMeansFourOctets | lib/model/ServiceNode.cpp:37-57 | A printed address has four good tokens and no final dot |
| ServiceNodes.FourOctetsMeanDotted | lib/model/ServiceNode.cpp:37-57 | Four good tokens without a final dot are a printed address |
| ServiceNodes.IsValidIpv4 | lib/model/ServiceNode.cpp:32-58 | Accepts a string exactly when it is the dotted form of four numbers 0 to 255 (section 3.2.2 of RFC 3986) |
| ServiceNodes.IsValid | lib/model/ServiceNode.cpp:28-30 | A service is valid exactly with a name, a port and a dotted address |
| LoadDriver.StartIsValid | bench/main.cpp:378-408 | The first wave fills the window exactly |
| LoadDriver.StuckExactlyWithoutWork | bench/main.cpp:378-408 | With no request or no concurrency, and only then, the driver has nothing to wait for and is never stopped |
| LoadDriver.FinishKeepsValid | bench/main.cpp:287-301 | Recording a result and refilling keeps the window as full as the requests left allow, and stops the loop once, after the last |
| LoadDriver.RunKeepsValid | bench/main.cpp:278-408 | Every run of the driver keeps that |
| LoadDriver.DriverIsExact | bench/main.cpp:278-408 | In every run launched = in flight + done, one result per connection done, in flight within the concurrency, peak the largest in flight, and stop called once, exactly with all results in |
| LoadDriver.EveryOutcomeIsPossible | bench/main.cpp:278-376 | Until the loop is stopped, whatever a connection waits for may happen, with any outcome |
| LoadDriver.EventKeepsFit | bench/main.cpp:278-376 | A connection connects, writes and reads in this order, and holds the sum of the data read |
| LoadDriver.ResultsAreTold | bench/main.cpp:278-376 | In every run the results are those its events settle, in order: a success exactly for a stream that ended or was reset after connecting and writing, with the sum of all data read |
| LoadDriverObjects.LoadContext.RaisePeak | bench/main.cpp:385-389 | The exchange loop leaves the larger of the two values, after any spurious failures |
| LoadDriverObjects.LoadContext.LaunchWave | bench/main.cpp:378-408 | The loop opens as many connections as fit under both limits |
| LoadDriverObjects.LoadContext.Finish | bench/main.cpp:287-301 | Records the result, refills the window, and stops after the last |
| LoadDriverObjects.LoadContext.OnReadSome | bench/main.cpp:278-302 | Acts as the read handler: end of stream and reset count as success, with the bytes read |
| LoadDriverObjects.RunLoad | bench/main.cpp:278-450 | From the first wave on, driven by any run of events, the object goes through the states of the driver, and stops, once, exactly with a result for every request |
| LoadDriverObjects.SortLatencies | bench/main.cpp:480 | Sorting gives an ascending rearrangement |
| LoadDriverObjects.OkLatenciesContents | bench/main.cpp:465-472 | There is one latency for each successful result, and each occurs as often as successes took so long |
| LoadDriverObjects.TotalConcat | bench/main.cpp:485 | The accumulated sum is additive over concatenation |
| LoadDriverObjects.Throughput | bench/main.cpp:474-476 | Completed requests per second of wall time, cut off to an integer; 0 without wall time |
| LoadDriverObjects.TotalBounds | bench/main.cpp:485 | A sum of n values between two bounds lies between n times the bounds |
| LoadDriverObjects.ComputeStats | bench/main.cpp:452-491 | Completed + errors is the number of results; minimum, percentiles and maximum are the ok latencies at their ranks, in ascending order, with the average between; peak and bytes are passed on |
| LoadDriverObjects.StoppedRunAccountsForAll | bench/main.cpp:447-491 | Statistics over the results of a run that stopped account for every request |

## Left out

- Sockets, timers and the reactor themselves: only the completions listed above. Time matters only through which handlers become ready.
- Exceptions: `remote_endpoint` on a peer already gone (`core/proxy/TcpProxy.cpp:56`), `make_address`, and errors thrown by `close`. Any that escapes would end the program.
- An error of the signal wait itself (`core/main.cpp:82-84`): nothing cancels the signal set.
- Logging, argument parsing, start-up and the strategy factory.
- YAML and TOML configuration, the user interface, and plain getters and setters: no property beyond the field list.
- `weight` and `maxPerService`: stored, but read by no routing code.
- Copying and moving of pools, states and strategies.
- `std::uniform_int_distribution` and the statistical quality of the generator: the draws are a stream, and that the redraw loop ends is a hypothesis of `P2CStrategy.SelectService`.
- Relaxed memory order beyond one sequentially consistent cell, and 64-bit overflow of the connection and failure counters, which are natural numbers. FNV-1a, SplitMix64 and xoshiro256** wrap around exactly.
- The order in which an unstable sort leaves equal keys: the sorts are modelled by an insertion sort, and only their contract is used. A ring with equal hashes is refused anyway, and which of several collisions comes first does not depend on that order.
- ServicePools.ServiceState.DecrementConnections: the object's retry loop fails spuriously only finitely often per call; unbounded interleaving is in `AtomicCounter`.
- SessionObjects.Session.Shutdown: `shutdown_both` before each `close` adds nothing that the model distinguishes from the close.
- PowerOfTwoChoices.LoadBound: covers runs of accepts in which no session ends and two services are drawn each time, that is, at least two are healthy.
- EventLoopShutdown.CanDrain: says that the engine can drain; when it must is `EventLoopShutdown.MustDrainExactly`.
- LoadDriver.DriverIsExact: assumes at least one request and a concurrency of at least one; `LoadDriver.StuckExactlyWithoutWork` covers the rest.
- LoadDriverObjects.ComputeStats: latencies, sums and quotients are real numbers, so floating-point rounding is not modelled, and neither is the width of the throughput's `int`; the algorithm's name and the number of backends, copied into the result, are left out.
- TcpProxyObjects.TcpProxy.OnAccept: the client's address, as text, is a parameter; a client turned away has its socket closed, which no later step depends on.
- HealthCheckerObjects.HealthChecker: the release of a failed probe's socket, when its last handler is gone.
- The driver's connect timeout, which only makes a connect fail, and the benchmark's HTTP mock, subprocess control and baseline text.
