# LightCoNE: verified model

A Dafny model of the parts of LightCoNE, a C++ network engine, that hold state over
time, and proofs of what they keep. Verify it with `dafny verify dfyconfig.toml`.

| component | modules |
|---|---|
| Beacon id reservation, peer table | `BeaconProtocol`, `BeaconSafety`, `BeaconHistory`, `BeaconRaces`, `BeaconSpeech`, `PeerTable`, `PeerFreshness`, `BeaconDaemon` |
| Network engine | `NetEngine`, `EngineFront`, `EngineWorker`, `EngineTcp`, `EngineSystem`, `EngineOwnership`, `EngineStory`, `EngineLeases`, `EngineRuns`, `EngineSweep`, `EngineHistory`, `EngineTimeouts`, `EngineEvents`, `EngineRefinement`, `EngineExamples`, `LoadBalancer`, `MessageQueue` |
| Buffer and TCP stream | `ByteBuffer`, `TcpStream` |
| shared | `Basics`, `Lists` |
| HTTP headers and server | `Text`, `StringUtil`, `Decimal`, `HttpHeader`, `HttpReasons`, `HttpRoundTrip`, `HttpLookup`, `HttpFraming`, `HttpPipelining`, `HttpContent`, `HttpServer`, `HttpAnswers` |

Objects that the C++ code updates in place are classes (`Beacon`, `Worker`,
`Engine`, `Connection`, `Buffer`, `Tcp`, `HttpRequestHeader`, `HttpResponseHeader`, `Session`,
`LoadBalancerRR`, `MessageQueue`), with the loops of the source. Every method is
proved equal to a function on values, and the theorems are about those functions.
The two concurrent systems, beacon daemons on a network and the threads of the
engine, are step systems: a theorem about them holds at the end of every run, for
any number of nodes, connections, workers and steps in any order.

## Main results

- **Ids are unique**, in every run of any number of beacon daemons, *exactly when*
  packets are processed within less than half of `kNegotiateInterval` and rival
  reservations draw different nonces (`UniqueIdsIff`). Both counterexample runs are
  given. A claimed id never changes; `cb_beacon_ready` fires at most once per node
  exactly when the application never hands out id 0; a reservation is given up only
  because of a packet that some node really sent.
- **Owners keep speaking**: in every run, a turn that the owner of an id takes at least
  `interval` after it last acted puts a beacon with its type, id and port under way to
  every node, and an earlier turn does nothing (`OwnerSpeaks`; `ReserverClaims` and
  `DisputedReserves` say the same of nodes without an id).
- **The peer table and the up and down callbacks agree** over every run, and a
  health check leaves no stale entry, drops no other, and reports each eviction once.
  An entry stays exactly if a beacon of its peer was heard within the timeout
  (`SilentPeersGoDown`).
- **Every connection of the engine has one owner** in every interleaving of callers,
  listener, workers, application and shutdown; its callbacks form one well-formed
  story, all from one worker thread apart from `cb_net_accepted`; retains minus
  releases of the balancer are the connections held.
- **No lost wakeup**: while a worker sweeps its list and all other threads do what
  they like, every connection that has had its turn is watched for what it waits
  for, except one that the application has given its first bytes to send since its
  turn, which the next sweep picks up (`SweepWakesAll`, `TouchSpoilsIff`).
- **Idle connections time out, active ones do not**: with a clock that does not go back
  a worker's turn calls `cb_net_timeout` exactly when the connection is connected and
  nothing in the run so far counts as activity of it within the timeout
  (`TimesOutIffSilent`; `TurnTimesOutIff` for any clock).
- **The objects refine the step system**: a worker's sweep and its taking of the
  inbox, and a connect or accept with its hand-over, are runs of steps.
- **A printed header reads back** as the same header, for requests and responses,
  whatever the order of the multimap; printing reports the true length exactly when
  it fits; reading is stable under more input.
- **Fields are found under any casing of their name**, exactly the ones that some line
  of the header gives, however that line is written (`RequestFieldFoundIff`).
- **A request takes the bytes its header announces**: with a content length of n,
  nothing is called or consumed while a byte of header or content is missing, and the
  event that brings the last one makes one call and takes exactly header and n bytes,
  however the stream is split (`WaitsForContent`, `TakesContent`).
- **Framing does not depend on how bytes arrive**, for the first request on a
  connection; for all later calls it is proved how many there are and what each
  carries, for any split of the stream into events (`CallsAre`).
- **The buffer is a byte queue** that grows whenever there is memory, and no byte is
  lost, duplicated or reordered in a TCP stream.
- **Round robin is fair** until its 32-bit counter wraps, and the exact condition
  for an answer in range after that.

## What the code does differently from what one may expect

- `doc/engine.md` says that all callbacks of a socket come from one thread. The
  listener thread makes `cb_net_accepted`, a worker all others (`CallbackTrace`), so
  that two threads call back for every accepted socket that receives anything
  (`TwoThreadsCallBack`).
- A connecting socket that the application closes is reported by `cb_net_refused`
  only if nothing closes it again before its worker comes round. A second close, a
  callback that answers false, or a read that finds the connection lost makes it
  `cb_net_closed` (`RefusedIffClosedOnce`, `RefusalStandsIff`, `LossHidesRefusal`).
- When the counter of `LoadBalancerRR` wraps, `%` of a negative number gives values
  below the minimum, for instance -1 with three workers (`WrapLeavesRange`); the
  exact condition is in `InRangeIff`, and an answer of 0 posts to the inbox of the
  listener (`AnswersFromOne`).
- `kMaxWorker` allows 128 workers, but the thread pool holds 128 threads with the
  listener among them: `start` of 128 workers fails, after it has set the balancer
  up (`Start`).
- The peer table sees only the port and the high half of an IPv4 address, and only the
  port of an IPv6 one, so `service_remove` may drop the peer of another host and report
  it down at the address asked for (`WrongPeerRemoved`, and `AbsentPeerRemoved` for an
  address that no peer has). `RemoveHitsIff` says for which tables and addresses;
  only with an empty table is every address safe (`OnlyEmptyIsSafe`).
- The header of an HTTP connection is read once: `header_len` is never reset, so
  later requests are served with the first header (`EveryCallHasTheFirstHeader`), and
  each call takes as many bytes as the first. A second request is served as it would
  be alone exactly when its header says the same as the first one's and is as long, and
  some receive event comes after the one that completes the first
  (`SecondIsServedIff`); a request for `/b` after one for `/a` is answered as one for
  `/a` (`WrongTarget`).
- A receive event makes one call at most, so of requests that come in one event all
  but the first wait for further events (`PipelinedStall`); `NoStallIff` says when none
  is left waiting.
- A beacon application that hands out id 0 has it reported ready again and again
  (`ZeroIdIsReportedAgain`).
- Self-assignment of a `Buffer` empties it.
- `reserve_begin` of nearly 2^64 bytes succeeds without making room, because the
  sum wraps; the contract of `ReserveBegin` says exactly when.
- `MessageQueue::get` documents milliseconds and waits microseconds; the model
  leaves the length of the wait open.

## Assumptions

The system calls `send`, `recv`, `accept`, `connect` and multicast, the clock, the
random draws, the memory allocator and the answers of all callbacks are parameters,
free to take any value. A region locked by a mutex is one step. A worker's handling
of one connection is one step with respect to other threads; what a callback does
to other connections, and what the application does from other threads, are steps
of their own (`Touch`), between any two others.

## Model

| member | source | states |
|---|---|---|
| BeaconRaces.UniqueIdsIff | lightcone/beacon.cpp:134-209 | in all runs of any number of nodes no two own the same nonzero id, if and only if twice the delivery bound is below kNegotiateInterval and rival nonces differ |
| BeaconSafety.IdsStayUnique | lightcone/beacon.cpp:134-209 | the sufficient direction, for each run from initialised nodes with arbitrarily skewed clocks |
| BeaconSafety.SafeRun | lightcone/beacon.cpp:134-209 | the inductive invariant over runs: an undisputed rival reservation always has a packet under way that stops one of the two sides in time |
| BeaconSafety.ReservePair | lightcone/beacon.cpp:137-151 | a new reservation keeps every pair of nodes safe: its packet reaches rivals and the owner before it can be claimed |
| BeaconSafety.ClaimPair | lightcone/beacon.cpp:152-158 | a claim keeps every pair safe: no rival can hold the id, because its challenge would have been due |
| BeaconSafety.DeliverPair | lightcone/beacon.cpp:187-207 | a received packet keeps every pair safe: it disputes the reservation, or the owner's answer replaces it in time |
| BeaconRaces.SlowNetworkBreaksUniqueness | lightcone/beacon.cpp:134-209 | for every delay of half the interval or more a run ends with two owners of one id |
| BeaconRaces.EqualNoncesBreakUniqueness | lightcone/beacon.cpp:198-202 | with equal nonces two nodes end up with one id on any network |
| BeaconHistory.NodeFate | lightcone/beacon.cpp:137-207 | one step keeps a claimed id, and ends a reservation only by claiming it or on receipt of a packet that disputes it |
| BeaconHistory.ClaimedIdNeverChanges | lightcone/beacon.cpp:137-165 | the id owned at any moment of a run is owned at every later moment |
| BeaconHistory.ReadyReportsTheOwnedId | lightcone/beacon.cpp:152-158 | of nonzero ids cb_beacon_ready reports exactly the one owned, once |
| BeaconHistory.ReadyFiresOnceIff | lightcone/beacon.cpp:152-158 | at most one cb_beacon_ready per node in all runs, if and only if the application never hands out id 0 |
| BeaconHistory.ZeroIdIsReportedAgain | lightcone/beacon.cpp:141-158 | the run in which a node reports id 0 twice |
| BeaconHistory.SentIsSent | lightcone/beacon.cpp:55-79 | every packet on record was multicast by some step of the run |
| BeaconHistory.AbandonedOnlyWhenDisputed | lightcone/beacon.cpp:187-207 | a reservation ends unclaimed only when a BEACON with its id, or a RESERVEID with its id and another nonce, was multicast earlier in the run |
| BeaconSpeech.OwnerSpeaks | lightcone/beacon.cpp:160-165 | in every run: a turn of an owner at least interval, on its own clock, after its last turn that did anything multicasts one BEACON with its type, id and port to every node, due at clock + delay, and nothing else; an earlier turn changes nothing |
| BeaconSpeech.ReserverClaims | lightcone/beacon.cpp:152-158 | in every run: an undisputed reservation is claimed, announced to every node and reported by the first turn 1000 ms after the node last acted, and no earlier |
| BeaconSpeech.DisputedReserves | lightcone/beacon.cpp:141-151 | in every run: the next turn of a node that is disputed, or new, once its clock shows 1000 ms, reserves the id it is given with the nonce drawn, moves its hint by 1 to 4, and sends a RESERVEID to every node unless the id is 0 |
| BeaconSpeech.NodesRemember | lightcone/beacon.cpp:134-209 | in every run the timer of a node is its own clock at its last turn that changed anything, or 0 while it is disputed |
| BeaconSpeech.OwnerAnswersReservation | lightcone/beacon.cpp:203-205 | a RESERVEID of an owned id is answered at once by one BEACON of the owner to every node |
| BeaconSpeech.OthersAreNotAnswered | lightcone/beacon.cpp:187-207 | no other packet is answered; exactly a BEACON of the reserved id, or a RESERVEID of it with another nonce, makes the node start over |
| BeaconDaemon.DecodeEncode | lightcone/beacon.cpp:55-79 | a packet reads back as the message sent by a daemon of the same application, and as nothing by any other |
| BeaconDaemon.DecodeIff | lightcone/beacon.cpp:176-205 | a packet is taken for a message if and only if it has 24 bytes or more and begins with the words sent for that message |
| BeaconDaemon.WireLayout | lightcone/beacon.cpp:55-79 | magic, application, command, type, id, port and nonce are at these places |
| BeaconDaemon.Beacon.Init | lightcone/beacon.cpp:22-48 | leaves a node that has not negotiated yet; peers are kept |
| BeaconDaemon.Beacon.SendBeacon | lightcone/beacon.cpp:55-66 | the beacon packet of the owned id, or none |
| BeaconDaemon.Beacon.SendReserveId | lightcone/beacon.cpp:67-79 | the reservation packet with the current nonce, none for id 0 |
| BeaconDaemon.Beacon.WorkerTurn | lightcone/beacon.cpp:134-165 | the fields, packet and report after one pass are those of the protocol's Turn, which OwnerSpeaks, ReserverClaims and DisputedReserves describe |
| BeaconDaemon.Beacon.CbRecv | lightcone/beacon.cpp:170-209 | malformed and foreign packets change nothing; others act on fields, answer and table as the protocol's Receive and the table's Update say |
| BeaconDaemon.Beacon.ServiceUpdate | lightcone/beacon.cpp:80-97 | the loop refreshes the entry with this type, id, host and port or appends one with an up event; table and events stay in step |
| BeaconDaemon.Beacon.ServiceRemove | lightcone/beacon.cpp:98-113 | the loop drops the first entry at the address with a down event; true exactly when there was one |
| BeaconDaemon.Beacon.ServiceHealthCheck | lightcone/beacon.cpp:114-133 | the restarting scan terminates and equals repeated eviction of the first stale entry, callbacks removing peers meanwhile |
| PeerTable.TableMatchesEvents | lightcone/beacon.cpp:80-133 | over any sequence of table operations, for every key, ups minus downs are its multiplicity, which is at most one, and ups and downs alternate starting with up |
| PeerTable.UpdateMatches | lightcone/beacon.cpp:80-97 | hearing of a peer keeps table and events in step |
| PeerTable.RemoveMatches | lightcone/beacon.cpp:98-113 | removing a peer keeps table and events in step |
| PeerTable.EvictMatches | lightcone/beacon.cpp:114-133 | a health check keeps them in step, whatever its callbacks remove |
| PeerTable.SameHostIff | lightcone/sockaddr.cpp:70-78 | which addresses are one to the table: IPv4 with the same port and high half, IPv6 with the same port |
| PeerTable.RemoveDropsVictim | lightcone/beacon.cpp:98-113 | one entry goes, or none, and it is reported down at the address asked for |
| PeerTable.RemoveHitsIff | lightcone/beacon.cpp:98-113 | for every table and address, in the table or not: the entry dropped is of another address if and only if some entry looks like the one asked for and none up to there is of that address; none is dropped if and only if none looks like it |
| PeerTable.OnlyEmptyIsSafe | lightcone/beacon.cpp:210-212 | no address makes it drop another host's entry if and only if the table is empty |
| PeerTable.WrongPeerRemoved | lightcone/beacon.cpp:98-113 | two hosts of one /16 network on one port: removing the second drops the first and reports it down at the second address |
| PeerTable.AbsentPeerRemoved | lightcone/beacon.cpp:210-212 | removing an address that no peer has drops the peer of another host |
| PeerTable.HealthCheckOutcome | lightcone/beacon.cpp:114-133 | no stale entry is left, no fresh one goes unless a callback names it, survivors keep their order, only down events, and for every type, id, host and port as many of them as entries gone |
| PeerTable.QuietHealthCheck | lightcone/beacon.cpp:114-133 | when callbacks remove nothing the scan is a filter, with the downs in table order |
| PeerFreshness.SeenIsLastHeard | lightcone/beacon.cpp:80-97 | after any table operations each entry carries the time of the last beacon of its type, id, host and port |
| PeerFreshness.SilentPeersGoDown | lightcone/beacon.cpp:114-133 | after any table operations a health check keeps an entry if and only if such a beacon was heard less than the timeout ago |
| PeerFreshness.EntryWasHeard | lightcone/beacon.cpp:92-95 | every entry was announced by a beacon with its type and id from its very address |
| PeerFreshness.StaleIff | lightcone/beacon.cpp:118 | stale means not heard for the timeout, in numbers, also for a clock that has gone back |
| NetEngine.CloseTimesIs | lightcone/tcp.cpp:115-132 | where any number of closes leads from any live state |
| NetEngine.HandleStateIs | lightcone/netengine.cpp:204-234 | a poll event ends the connecting phase, and beyond that the state depends only on how often its callbacks, their answers and a lost read close the connection |
| NetEngine.RefusalStandsIff | lightcone/netengine.cpp:204-234 | a refused connection stays refused in an event if and only if the event closes it not once |
| EngineHistory.StateIsHistory | lightcone/tcp.cpp:115-121 | in every run the state of a connection not deleted is the one it was made in, or Connected once an event has found it connecting, closed as often as anything has closed it |
| EngineHistory.RefusedIffClosedOnce | lightcone/netengine.cpp:157-172 | in every run the last callback is cb_net_refused if and only if the connection was made connecting, no event reached it while it was, and it was closed exactly once in all, by the application or by the engine; otherwise it is cb_net_closed |
| EngineExamples.LossHidesRefusal | lightcone/tcp.cpp:181-215 | a connecting socket closed once by the application and then found lost by a read ends with cb_net_closed |
| EngineTimeouts.TurnTimesOutIff | lightcone/netengine.cpp:181-189 | in every run, with any clock: a turn calls cb_net_timeout if and only if the connection is connected, the timeout is not 0, and the unsigned difference between now and its last activity, read off the steps of the run, is at least the timeout |
| EngineTimeouts.TimesOutIffSilent | lightcone/netengine.cpp:181-189 | with a clock that does not go back: if and only if it is connected, there is a timeout, and it has not been made, accepted, reported by the poller or timed out with the answer true within the timeout |
| EngineTimeouts.VisitTimesOutIff | lightcone/netengine.cpp:155-201 | a turn calls cb_net_timeout exactly then, and nothing else unless the connection is over |
| EngineEvents.EventCalls | lightcone/netengine.cpp:204-234 | which of cb_net_opened, cb_net_sent and cb_net_recv an event calls, in this order, after which answers it ends, and the sizes of both buffers afterwards |
| EngineEvents.TakenIsWatched | lightcone/netengine.cpp:134-143 | in every run a connection that a worker takes is watched for writing exactly if it is still connecting, and is otherwise unchanged |
| NetEngine.WatchAdvances | lightcone/netengine.cpp:173-201 | a connection that stays in the list gets at most ordinary callbacks from its worker, keeps poller and event mask in step, and is awake afterwards |
| NetEngine.HandleAdvances | lightcone/netengine.cpp:204-234 | a poll event does the same, whatever the callbacks answer and however often they close; only the step out of Connecting may report it open |
| NetEngine.FinishEnds | lightcone/netengine.cpp:157-172 | a connection that is over gets one last callback, of the kind its state asks for, and leaves the poller |
| EngineFront.Engine.Start | lightcone/netengine.cpp:16-23 | true exactly for 1 to 127 workers, a negative number counting per core; the balancer is set up for 128 as well, and untouched otherwise |
| EngineFront.Engine.Listen | lightcone/netengine.cpp:27-43 | a listening socket goes to the listener's inbox, a failed one nowhere |
| EngineFront.Engine.Connect | lightcone/netengine.cpp:44-62 | a socket that has started to connect goes to the inbox that the balancer's next answer names, and to no other, whenever that answer is an index at all |
| EngineFront.Engine.AcceptAll | lightcone/netengine.cpp:90-112 | the accept loop offers every socket to cb_net_accepted, closes those refused, and appends each to the inbox that the balancer's answer names, in order of arrival |
| EngineFront.WorkIsSpreadEvenly | lightcone/netengine.cpp:57-59 | of all connections handed over before the counter wraps no worker is sent two more than another |
| EngineWorker.Connection.Close | lightcone/tcp.cpp:115-121 | close of a managed connection only marks it |
| EngineWorker.Connection.IoWrite | lightcone/tcp.cpp:216-244 | of a managed connection: ends the connecting phase and takes at most the output there is |
| EngineWorker.Connection.IoRead | lightcone/tcp.cpp:181-215 | of a managed connection: ends the connecting phase, adds the bytes received, and closes when the stream has ended |
| EngineTcp.CloseBoth | lightcone/tcp.cpp:115-121 | closing the connection object and the engine's view of it keeps them alike in state and buffer sizes |
| EngineTcp.WriteBoth | lightcone/tcp.cpp:216-244 | so does writing, and a managed socket stays valid |
| EngineTcp.ReadBoth | lightcone/tcp.cpp:181-215 | so does reading: all rounds of the receive loop are the one gift of bytes, and the loss, that the engine sees |
| EngineWorker.Worker.TakeAll | lightcone/netengine.cpp:133-144 | the loop moves the whole inbox, in order, to the end of the list and registers each connection with the interest its state asks for |
| EngineWorker.Worker.VisitAt | lightcone/netengine.cpp:155-202 | one turn changes its connection as Visit says and no other; one that is over leaves the list and is deleted and released with its own hash |
| EngineWorker.Worker.Sweep | lightcone/netengine.cpp:154-202 | the loop with erasing gives every connection exactly one turn, in order; those over are deleted, the others stay in order |
| EngineWorker.Worker.OnEvent | lightcone/netengine.cpp:204-234 | the event handler changes its connection as Handle says |
| EngineWorker.NoLostWakeup | lightcone/netengine.cpp:155-202 | after a sweep every connected socket in the list has write interest exactly when output waits, every connecting one has it, and every one gone has had its last callback |
| EngineRuns.SingleOwner | lightcone/netengine.cpp:27-62 | in every interleaving the connections created are exactly those in transit, in inboxes, in lists and deleted, each in one place once |
| EngineOwnership.StepKeepsPlaces | lightcone/netengine.cpp:76-110 | no step of any thread loses a connection, shares it or deletes it twice |
| EngineOwnership.Census | lightcone/netengine.cpp:237-247 | the count: created is in transit plus queued plus listed plus deleted, as multisets |
| EngineRuns.CallbackTrace | lightcone/netengine.cpp:95-234 | cb_net_closed or cb_net_refused is the last callback, of reaped connections only; cb_net_accepted the first, of accepted ones only and from thread 0; all others come from the worker the balancer named; what is refused never was opened |
| EngineRuns.ReapedWasTold | lightcone/netengine.cpp:155-172 | a reaped connection has had its last callback, an accepted one its first, and cb_net_opened fires at most once |
| EngineRuns.PollerInStep | lightcone/netengine.cpp:135-202 | in every reachable state a socket is under a poller exactly while listed, with write interest exactly when kWrite is in its event mask, and it is listed with the worker the balancer named |
| EngineRuns.VisitWakes | lightcone/netengine.cpp:155-202 | in every reachable state a worker's turn leaves its connection reaped or awake |
| EngineSweep.TurnEffect | lightcone/netengine.cpp:155-202 | a turn is always possible; it reaps and unlists its connection if that is over, leaves it awake if not, and changes no other |
| EngineSweep.OtherEffect | lightcone/netengine.cpp:126-248 | a step of any other thread leaves a worker's list and the connections in it as they are, but for one that the application touches |
| EngineSweep.TouchSpoilsIff | lightcone/netengine.cpp:190-200 | the application leaves an awake connection unwatched if and only if it queues the first bytes of a connected one |
| EngineSweep.SweepWakesAll | lightcone/netengine.cpp:154-202 | from every reachable state and with any steps of all other threads in between: at every moment of a worker's sweep the list is those that stay after their turn, then those to come; those gone are reaped; those that stay are awake except where the application has queued first bytes since; the next turn can be taken; and if the application leaves the list alone those that stay are those that were not over |
| EngineRefinement.SweepIsARun | lightcone/netengine.cpp:154-202 | what Worker.Sweep promises about connections, list and deletions is a run of turns |
| EngineRefinement.TakeAllIsARun | lightcone/netengine.cpp:133-144 | what Worker.TakeAll promises is a run of takes, which leaves all other connections as they were |
| EngineRefinement.HandOverIsARun | lightcone/netengine.cpp:98-109 | what Connect and each round of AcceptAll promise is a run of three steps: make, retain, post |
| EngineExamples.TwoThreadsCallBack | lightcone/netengine.cpp:90-112 | in every engine with a worker a run in which one socket gets cb_net_accepted from thread 0 and cb_net_recv from thread 1 |
| EngineExamples.StartedIsInitial | lightcone/netengine.cpp:16-23 | there is an initial state for every number of workers |
| EngineRuns.BalancerConservation | lightcone/netengine.cpp:55-61 | retains are releases plus the leases of the connections in transit, queued, listed or killed at shutdown; every release repeats the id and hash of a retain |
| EngineLeases.StepKeepsBalance | lightcone/netengine.cpp:98-109 | every step keeps one retain for each connection handed over and one release for each reaped, with its own hash |
| EngineRuns.DeletedIsForever | lightcone/netengine.cpp:157-172 | a deleted connection is never touched again, stories only grow, and the worker of a connection never changes |
| EngineStory.StepKeepsStories | lightcone/netengine.cpp:126-248 | every step of every thread keeps all stories well formed |
| EngineStory.OthersStay | lightcone/netengine.cpp:126-248 | a step changes one connection at most |
| EngineLeases.RoundRobinNamesAWorker | lightcone/netengine.cpp:57-59 | before its counter wraps the round-robin answer is a worker with an inbox |
| LoadBalancer.LoadBalancerRR.Setup | lightcone/loadbalancer.h:32 | starts over with the given range, of any size that is an int; answers are defined unless the size is 0 |
| LoadBalancer.LoadBalancerRR.Retain | lightcone/loadbalancer.h:33 | answers what the call number says, in range before the wrap |
| LoadBalancer.InRangeIff | lightcone/loadbalancer.h:33 | answer number n is in range if and only if min + n, cut to 32 bits, is not negative or is a multiple of the number of workers |
| LoadBalancer.AnswersFromOne | lightcone/netengine.cpp:21-22 | of workers numbered from 1: no answer is too large, and after how many calls it is a worker, or the listener |
| LoadBalancer.InRangeBeforeWrap | lightcone/loadbalancer.h:32-33 | the first 2^31 - min answers are in range |
| LoadBalancer.FirstWrappedAnswer | lightcone/loadbalancer.h:33 | the answer after the wrap is below the minimum if and only if the number of workers does not divide 2^31 |
| LoadBalancer.WrapLeavesRange | lightcone/loadbalancer.h:33 | with workers 1 to 3 it is -1 |
| LoadBalancer.EveryRoundNamesEachOnce | lightcone/loadbalancer.h:33 | any max - min + 1 consecutive calls before the wrap name each worker exactly once |
| LoadBalancer.RoundRobinIsFair | lightcone/loadbalancer.h:33 | after any number of calls before the wrap two workers' counts differ by one at most |
| MessageQueue.MessageQueue.Post | lightcone/msgqueue.h:49-60 | appends |
| MessageQueue.MessageQueue.Get | lightcone/msgqueue.h:63-72 | takes the oldest message, also one posted while waiting; messages leave in the order posted, none lost or doubled |
| ByteBuffer.Pad | lightcone/buffer.cpp:48 | the next multiple of 16, when the addition does not wrap |
| ByteBuffer.GrantedIff | lightcone/buffer.cpp:46-56 | what fits the address space is granted if and only if the block is large enough or there is memory; what does not is refused, until the padding wraps to 0 |
| ByteBuffer.Buffer.constructor | lightcone/buffer.cpp:9-12 | an empty queue without a block |
| ByteBuffer.Buffer.Copy | lightcone/buffer.cpp:16-23 | the same contents in a block of its own, if memory is found |
| ByteBuffer.Buffer.Move | lightcone/buffer.cpp:24-29 | takes contents and block over and leaves the other empty |
| ByteBuffer.Buffer.CopyFrom | lightcone/buffer.cpp:30-37 | as copying, and assignment to itself loses the contents |
| ByteBuffer.Buffer.MoveFrom | lightcone/buffer.cpp:38-45 | as moving, and assignment to itself loses the contents |
| ByteBuffer.Buffer.Free | lightcone/buffer.cpp:57-63 | empty, without a block |
| ByteBuffer.Buffer.Realloc | lightcone/buffer.cpp:46-56 | within the address space it succeeds if and only if there is memory or the block is large enough; contents stay; the block is the largest rounded request since the last free; a failed call changes nothing |
| ByteBuffer.Buffer.ReserveBegin | lightcone/buffer.cpp:64-72 | within the address space it succeeds if and only if there is memory or room; contents stay, the tail is behind them, and there is room for n bytes exactly when the sum does not wrap; a failed call changes nothing |
| ByteBuffer.Buffer.ReserveEnd | lightcone/buffer.cpp:73-78 | appends the bytes written behind the contents, if there is room for them; a failed call changes nothing |
| ByteBuffer.Buffer.TrimHead | lightcone/buffer.cpp:79-85 | drops the first n bytes, or fails and changes nothing when there are fewer |
| ByteBuffer.Buffer.TrimTail | lightcone/buffer.cpp:86-91 | drops the last n bytes, or fails and changes nothing when there are fewer |
| TcpStream.Tcp.Close | lightcone/tcp.cpp:115-132 | marks a managed connection, closes any other, and tells the callback of one that was connecting that it failed |
| TcpStream.Tcp.Connect | lightcone/tcp.cpp:85-109 | refuses when there is a socket, else starts afresh: state, buffers, and what the callback is told at once, for each way the attempt may go; a callback is told at most once |
| TcpStream.Tcp.Send | lightcone/tcp.cpp:133-147 | with memory, or room, commits all the data, and none otherwise; bytes accepted by the kernel followed by the output buffer are all bytes committed |
| TcpStream.Tcp.SendReserved | lightcone/tcp.cpp:148-155 | commits exactly what the callback says it wrote, and closes on a negative answer; a claim beyond the reserved space commits what lies there, or nothing if that is outside the block |
| TcpStream.Tcp.Recv | lightcone/tcp.cpp:156-162 | consumes what the handler claims, nothing when it claims too much; bytes consumed followed by the input buffer are all bytes received |
| TcpStream.Tcp.IoRead | lightcone/tcp.cpp:181-215 | receives the bytes of full rounds and one more, in order, stops only when that one is not full, memory is refused or the socket has nothing to give, and with memory in every round only when it is not full or nothing is left; closes exactly when it finds the stream ended or failed |
| TcpStream.Tcp.IoWrite | lightcone/tcp.cpp:216-244 | moves the bytes the kernel takes from the output buffer to those accepted |
| StringUtil.Split | lightcone/stringutil.cpp:6-78 | the loop returns the nonempty stretches between delimiters |
| StringUtil.PiecesArePieces | lightcone/stringutil.cpp:6-21 | every piece is nonempty and free of delimiters |
| StringUtil.PiecesAreTheRest | lightcone/stringutil.cpp:6-21 | the pieces together are the text without its delimiters |
| StringUtil.SplitUndoesJoin | lightcone/stringutil.cpp:6-21 | splitting gives back any list of nonempty delimiter-free pieces that was joined |
| StringUtil.TrimTakesBlanks | lightcone/stringutil.cpp:88-97 | trim takes the blanks off both ends and nothing else |
| StringUtil.TrimIs | lightcone/stringutil.cpp:88-97 | and that determines its result |
| StringUtil.TrimTwice | lightcone/stringutil.cpp:88-97 | trimming again changes nothing |
| Decimal.AtoiOfIntText | lightcone/httpheader.cpp:133 | atoi gives back every int printed with %d, whatever follows that is not a digit |
| Decimal.AtoiOfNumber | lightcone/httpserver.cpp:39 | atoi of a number of any size behind white space, a sign and zeros: saturated at a long and cut to an int |
| Decimal.AtoiOfNoNumber | lightcone/httpserver.cpp:39 | and 0 where no digit follows |
| Decimal.NatTextTimesTen | lightcone/httpheader.cpp:158 | printing is in base ten |
| HttpHeader.ShortenedLine | lightcone/httpheader.cpp:60-63 | cutting the line one byte short and the value one byte long cancel: the field is that of the whole line, none if its first colon is its last byte |
| HttpHeader.ReadFields | lightcone/httpheader.cpp:56-70 | the loop terminates, stays within the header, and finds the fields line by line |
| HttpHeader.HttpRequestHeader.ReadFrom | lightcone/httpheader.cpp:32-72 | the four outcomes, and which fields each of them sets |
| HttpHeader.HttpRequestHeader.WriteTo | lightcone/httpheader.cpp:73-89 | the true length if the text fits with a closing NUL and -1 otherwise; writes the text then, and never outside the buffer |
| HttpHeader.HttpResponseHeader.ReadFrom | lightcone/httpheader.cpp:110-151 | the four outcomes, and which fields each of them sets |
| HttpHeader.HttpResponseHeader.WriteTo | lightcone/httpheader.cpp:152-168 | as for requests |
| HttpHeader.WriteHeader | lightcone/httpheader.cpp:73-89 | both printing loops: complete exactly when the text fits, though single snprintf calls may truncate |
| HttpHeader.StatusMessage | lightcone/httpheader.cpp:169-226 | every status has a phrase, nonempty and without a line break |
| HttpReasons.EveryPhrase | lightcone/httpheader.cpp:177-226 | each status of the table has its own phrase |
| HttpReasons.OtherStatus | lightcone/httpheader.cpp:169-176 | and every other status is undefined |
| HttpRoundTrip.RequestRoundTrip | lightcone/httpheader.cpp:32-89 | for a nonempty method and target free of space, CR, LF and NUL, keys free of colon, CR, LF and NUL, and values free of CR, LF and NUL: reading the printed request consumes all of it and gives the same version, method, target and fields, keys trimmed and in lower case, values trimmed |
| HttpRoundTrip.ResponseRoundTrip | lightcone/httpheader.cpp:110-176 | the same for responses with such fields, for every int status |
| HttpRoundTrip.OrderDoesNotMatter | lightcone/httpheader.cpp:80-85 | as a multiset the fields do not depend on the iteration order |
| HttpRoundTrip.WriteThenRead | lightcone/httpheader.cpp:32-89 | the two methods in a row, through the byte buffer, into a fresh header |
| HttpRoundTrip.HeaderComesBack | lightcone/httpheader.cpp:36-71 | where a printed header and its first line end, and that its fields come back in order |
| HttpRoundTrip.IncompleteIff | lightcone/httpheader.cpp:34-39 | a request is incomplete exactly below nine bytes or without CRLFCRLF |
| HttpRoundTrip.RequestIsStable | lightcone/httpheader.cpp:32-72 | once not incomplete, the outcome is the same whatever bytes follow |
| HttpLookup.LowerIs | lightcone/httpheader.cpp:65 | lower case byte by byte: same length, no capital left, 32 added to capitals and nothing to others |
| HttpLookup.SaysIff | lightcone/httpheader.cpp:60-66 | a field is found in a line if and only if the line is a key that is some casing of its name between blanks, a colon, and a nonempty rest that is its value between blanks |
| HttpLookup.RequestFieldFoundIff | lightcone/httpheader.cpp:32-72 | a request of any header lines is read in full, and a value is found under a lower-case name if and only if some line gives it to a casing of that name |
| HttpLookup.ResponseFieldFoundIff | lightcone/httpheader.cpp:110-151 | the same of a response |
| HttpLookup.RequestLineDecides | lightcone/httpheader.cpp:34-54 | for any number of words in the first line and any header lines: incomplete below nine bytes, malformed unless there are three words, rejected unless the third is a version, else read |
| HttpLookup.StatusLineDecides | lightcone/httpheader.cpp:121-133 | a version, any blanks and a number, whatever follows that is not a digit, is read as a response with that status |
| HttpLookup.ResponseRejectedIff | lightcone/httpheader.cpp:121-132 | rejected if and only if the first line does not begin with a version, or has only blanks behind it |
| HttpFraming.NothingBeforeReady | lightcone/httpserver.cpp:26-56 | however bytes are split over events, nothing is consumed or dispatched before a whole request is there |
| HttpFraming.FirstDispatch | lightcone/httpserver.cpp:46-52 | the event that completes it dispatches it once, with a body that starts with its content, and consumes exactly header and content |
| HttpFraming.FirstRequestIgnoresChunks | lightcone/httpserver.cpp:26-56 | two ways of splitting one stream into events dispatch the same first request, with the same header and content |
| HttpFraming.RefusedForever | lightcone/httpserver.cpp:43-44 | after a rejected header, or a negative content length, nothing is ever dispatched or consumed |
| HttpFraming.EveryCallHasTheFirstHeader | lightcone/httpserver.cpp:35-52 | every call on a connection is made with the header that was read first |
| HttpPipelining.LaterEvent | lightcone/httpserver.cpp:46-55 | once the header is read an event dispatches if and only if the bytes of one more request are there, and takes exactly that many |
| HttpPipelining.CallsAre | lightcone/httpserver.cpp:26-56 | for any split of any accepted stream: the k-th call has the first header and what had come behind such a header in the k-th stretch of the first request's length; the rest waits |
| HttpPipelining.ServedAtMost | lightcone/httpserver.cpp:26-56 | after any number of events no more calls than whole stretches by then, and one for each event after |
| HttpPipelining.ServedReaches | lightcone/httpserver.cpp:26-56 | the number of calls is the least of these bounds |
| HttpPipelining.NoStallIff | lightcone/httpserver.cpp:26-56 | every whole stretch has been called for if and only if never more were due than events were to come |
| HttpPipelining.SecondIsServedIff | lightcone/httpserver.cpp:35-52 | however two requests and what follows are split: the second is served as it would be alone if and only if its header says the same as the first one's and is as long, and an event comes after the one that completes the first |
| HttpPipelining.PrintedPair | lightcone/httpserver.cpp:35-52 | for any two printed requests, the first without content length, however split: a second call if and only if the second is no shorter and an event comes after the one that completes the first, with the second's version, method, target and fields if and only if these are the first's |
| HttpPipelining.WrongTarget | lightcone/httpserver.cpp:35-52 | a request for /b after one for /a is handed on as one for /a |
| HttpPipelining.PipelinedStall | lightcone/httpserver.cpp:46-55 | of two equal requests in one event the first is served and the second waits |
| HttpContent.AnnouncedIsContentLength | lightcone/httpserver.cpp:38-42 | the content length is the number that the content-length lines give, in any casing, and 0 without such a line |
| HttpContent.WaitsForContent | lightcone/httpserver.cpp:35-54 | with n announced, however the stream is split: no call and nothing consumed while fewer than the bytes of header and n more have come, and never if n is negative |
| HttpContent.TakesContent | lightcone/httpserver.cpp:46-52 | the event that brings them makes one call with what the lines say and all bytes behind the header, and takes exactly header and n bytes |
| HttpContent.CallsByContent | lightcone/httpserver.cpp:26-56 | all calls of the connection, one for each stretch as long as header and n, at the events by which these have come |
| HttpContent.PrintedFieldGives | lightcone/httpheader.cpp:80-85 | a printed request with one field of a name, in any casing, and the value n between blanks gives n to that name |
| HttpServer.Session.HttpAccepted | lightcone/httpserver.cpp:12-17 | attaches fresh connection data unless some are there |
| HttpServer.Session.HttpClosed | lightcone/httpserver.cpp:18-25 | takes them away and leaves other user data |
| HttpServer.Session.HttpRecv | lightcone/httpserver.cpp:26-56 | on the real buffer the handler acts as the framing function says, whatever cb_http sends on its connection and however often it closes it; a dispatched request that was not handled adds a 404, if there is memory, behind what cb_http sent |
| HttpServer.Session.HttpResponse | lightcone/httpserver.cpp:66-78 | queues header and data in one piece if the header fits in 16384 bytes and closes otherwise; refuses empty data |
| HttpServer.Session.NotFound | lightcone/httpserver.cpp:60-65 | queues the 404 with content-length 0 |
| HttpAnswers.NotFoundIsReadBack | lightcone/httpserver.cpp:60-65 | a client reads the 404 as a whole, as HTTP/1.1 404 with content-length 0 |
| HttpAnswers.AnswerIs | lightcone/httpserver.cpp:48-50 | with memory, an unhandled request is answered by such a 404 behind what the application sent, a handled one by the latter alone |
| HttpAnswers.QueueIff | lightcone/tcp.cpp:148-155 | a piece within the address space is committed as a whole if and only if there is memory or room; otherwise nothing changes |
| HttpAnswers.FirstSentFirst | lightcone/tcp.cpp:148-155 | what the application sends first is queued first |
| HttpAnswers.ClosedTimesIs | lightcone/tcp.cpp:115-132 | where any number of closes leads, managed or not |

## Left out

- Socket, UDP, address and poller code (`socket.cpp`, `udp.cpp`, `sockaddr.cpp`, `netpoller.cpp`): system-call wrappers; addresses are values with a key.
- Starting threads, sleeping, and a poller that fails to initialise: workers run from the start and may be stopped at any time.
- Connections left behind at shutdown: what is posted to a worker that has finished draining stays in its inbox in the model as in the code.
- EngineWorker.Connection.IoWrite: sizes only, and no early return on an invalid socket, which a managed connection never has; TcpStream.Tcp.IoWrite has both, and EngineTcp.WriteBoth ties the two.
- EngineWorker.Connection.IoRead: sizes only, the rounds of the receive loop as one, and no early return; TcpStream.Tcp.IoRead has them, and EngineTcp.ReadBoth ties the two.
- EngineWorker.Worker: connections carry the sizes of their buffers; EngineTcp ties them to the bytes of TcpStream; a callback in the class acts on its own connection only, in EngineSystem on any.
- EngineSystem: handling one connection is atomic with respect to closes from other threads, which the code does not synchronise.
- Order of the sweep in EngineSystem: a worker may visit its connections in any order and any number of times, of which the loop of EngineWorker is one case.
- cb_net_opened before all other callbacks of an outgoing connection: not claimed, because a socket closed by another thread, or reported readable first, may skip it.
- TcpStream: `poll`, `listen`, `accept` and the move operations of `Tcp`, which only forward.
- HttpServer.Session.HttpRecv: cb_http sends and closes; that it reads from its connection itself, from within the handler, is not modelled.
- LoadBalancer.LoadBalancerRR.Setup: ranges whose size is not an int, where the C++ arithmetic is undefined.
- EngineFront.Engine.Start: products of cores and workers that are not an int, for the same reason.
- EngineFront.Engine.Connect, EngineFront.Engine.AcceptAll: negative answers of the balancer, with which the code indexes outside its array.
- Headers and buffers passed as null pointers: the calls fail at once.
- Printed texts of 2^31 bytes or more, on which snprintf fails.
- Decimal.Atoi: saturates at a 64-bit long and then cuts to 32 bits, as glibc does; the end of the text acts as a terminator, while the C function would read on.
- Stability of the response parser under more input: atoi may read past the status line when that holds only blanks behind the version.
- Locale-dependent `tolower`, and the order of equal keys in the multimap: ASCII, and any order.
- `cmdarg`, `sysinfo`, `byteorder`, `calendar`, examples and project files: plumbing.
