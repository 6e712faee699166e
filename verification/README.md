# Candy: verified models of its hard state machines

Candy is a peer-to-peer VPN. This project models six of its parts in Dafny and proves what they promise, for every
input, every run and every reachable state. Code that changes things step by step is modelled by classes whose
methods are proved against functions on plain values; the theorems are about those functions and about runs of them.
The classes `SessionTcp`, `UdpMux`, `NetStack` and `Tun` carry their run so far as ghost state, so that the theorems
about runs hold of the objects between any two calls.

* **TCP splice** (`TcpModel`, `TcpInvariant`, `TcpTheorems`, `TcpConnecting`, `SessionTcps`). One connection terminated by lwIP and
  spliced onto a kernel socket by two threads that talk through two first-in first-out task queues. A step is one fd
  handler or one queued task; lwIP, the kernel and the scheduler are arbitrary.
* **UDP multiplexer** (`Stun`, `UdpModel`, `UdpMuxes`, `UdpTrace`, `UdpConverged`, `UdpSessions`). The header recogniser of section 6
  of RFC 5389, the ownership and transaction tables, and the session table of converged mode with its own ageing.
* **Peers** (`PeerModel`, `PeerTheorems`, `PeerHistory`, `Peers`, `Handshake`). The seven-state machine, its timeouts and back-off,
  and the two-party handshake over a lossy, duplicating, reordering channel.
* **Routing** (`RouteModel`, `RouteNetwork`, `PeerManagers`). The distance-vector tables of any number of relay nodes.
* **Addresses** (`Net`, `Subnets`, `Dhcp`, `DhcpTheorems`, `RoutePush`). Bytes and bits of addresses and masks, the
  walk of `Address::Next`, the address search of the server, and the batching of pushed routes.
* **Initiated flows** (`FlowModel`, `FlowTables`, `FlowTrace`). The bounded cache that decides a packet's direction.

`Prelude` holds the shared vocabulary. Where a promise is false of the code, a lemma shows a concrete run or input and
another gives the exact condition under which it holds:

* A pump in which `tcp_write` first answers OK and then a fatal error delivers bytes twice
  (`TcpTheorems.HalfFailedPumpDuplicates`). The bytes are conserved exactly when no pump does that
  (`TcpTheorems.BackwardConservation`, `TcpTheorems.LwipClosesDrained`), so always if lwIP's answer cannot turn from OK
  to fatal inside the loop of one pump.
* Interest changes for the reading side drop WRITE, so bytes for the landing fd can be left with nobody to send them,
  after a pause (`TcpTheorems.PauseStrands`), a resumption (`TcpTheorems.ResumeStrands`) or an end of file
  (`TcpTheorems.EofStrandsForwardBytes`); over runs, exactly when such a step is taken
  (`TcpTheorems.ForwardLiveThroughout`). After the first two the session is open, reading and idle, with the byte unsent.
* The tail towards the landing fd is lost when the lwIP side closes before it is sent
  (`TcpTheorems.CloseDropsForwardBytes`); everything delivered is sent exactly if forwardBuf is empty when the fd is
  closed (`TcpTheorems.ForwardTailExactly`).
* The condition of the address search joins its two tests with `&&`, so it assigns addresses that are taken
  (`DhcpTheorems.TakenAddressAssigned`) or invalid (`DhcpTheorems.InvalidAddressAssigned`; exactly when neither:
  `DhcpTheorems.GoodExactly`), and its "all addresses in the network are assigned" is reported in two degenerate cases
  only (`DhcpTheorems.ExhaustedExactly`).
* An address asked for is granted if its network under its own mask equals the DHCP network, which does not keep it
  in the DHCP subnet (`DhcpTheorems.DirectOutsideSubnet`; exactly for which masks it does: `DhcpTheorems.DirectInSubnet`).
* A route frame that is shorter than its size byte says is decoded from what lies behind it (`RoutePush.ShortFrame`;
  exactly then: `RoutePush.DecodingDependsExactly`); the server sends none (`RoutePush.PushRoundTrip`).

The comment at candy/src/websocket/server.cc:461 puts a full frame at 100 routes and 1204 bytes; the code sends 101
routes, 1216 bytes, and the model follows the code.

## Model

| member | source | states |
|---|---|---|
| SessionTcps.SessionTcp.OnRecv | candy/src/netstack/session_tcp.cc:87-122 | delivered data is appended to forwardBuf and a flush is queued on the reactor; nothing is acknowledged yet |
| SessionTcps.SessionTcp.OnRecvClosed | candy/src/netstack/session_tcp.cc:88-95 | the other side's close takes the lwIP side down and queues the reactor's close |
| SessionTcps.SessionTcp.OnErr | candy/src/netstack/session_tcp.cc:130-141 | after an abort the session leaves the table and closes off the reactor thread |
| SessionTcps.SessionTcp.WriteToLwip | candy/src/netstack/session_tcp.cc:143-149 | appends and pumps while the pcb lives, else nothing |
| SessionTcps.SessionTcp.FillSendBuffer | candy/src/netstack/session_tcp.cc:157-174 | the write loop hands lwIP a prefix of backwardBuf and stops for lack of space, of data, or on an error; no chunk exceeds the room in the send buffer, which TcpWrite requires |
| SessionTcps.SessionTcp.PumpToLwip | candy/src/netstack/session_tcp.cc:151-191 | the whole new state after a pump: accepted bytes leave buffer and counter unless a fatal error keeps them, a resumption may be queued, a drained end of file closes |
| SessionTcps.SessionTcp.OnFdEofFromStack | candy/src/netstack/session_tcp.cc:193-200 | records the end of file, pumps, and closes if nothing is left |
| SessionTcps.SessionTcp.AckRecvedToLwip | candy/src/netstack/session_tcp.cc:202-218 | the chunk loop acknowledges exactly what was pending, in portions that fit 16 bits |
| SessionTcps.SessionTcp.UpdateReadInterest | candy/src/netstack/session_tcp.cc:220-240 | queues a resumption exactly when paused at or below the low-water mark |
| SessionTcps.SessionTcp.CloseFromStack | candy/src/netstack/session_tcp.cc:242-261 | pcb and table entry go together, the reactor is told to close |
| SessionTcps.SessionTcp.ShutdownFromStack | candy/src/netstack/session_tcp.cc:263-287 | teardown marks the session closing once and queues the closing of the fd |
| SessionTcps.SessionTcp.OnFdEvent | candy/src/netstack/session_tcp.cc:291-311 | before the connection failure wins over writability; after it reading comes before writing |
| SessionTcps.SessionTcp.OnConnected | candy/src/netstack/session_tcp.cc:313-332 | a failed connect closes, a successful one watches READ and flushes |
| SessionTcps.SessionTcp.SendLoop | candy/src/netstack/session_tcp.cc:344-360 | the send loop removes from forwardBuf exactly the prefix the kernel took |
| SessionTcps.SessionTcp.FlushForwardLocked | candy/src/netstack/session_tcp.cc:334-381 | the whole new state after a flush, drained, blocked or failed, with the acknowledgement queued if and only if bytes went out |
| SessionTcps.SessionTcp.ReadLoop | candy/src/netstack/session_tcp.cc:390-422 | the read loop tests the high-water mark before each read, counts and queues every chunk, and nothing else |
| SessionTcps.SessionTcp.OnFdReadable | candy/src/netstack/session_tcp.cc:387-424 | the whole new state after reading: paused, at end of file, blocked or failed |
| SessionTcps.SessionTcp.CloseFromReactor | candy/src/netstack/session_tcp.cc:426-444 | closes once; the fd goes, the stack is told if it still has a pcb |
| SessionTcps.SessionTcp.RunStackTask | candy/src/netstack/netstack.cc:254-269 | takes the first task of the stack's queue and does what it says |
| SessionTcps.SessionTcp.RunReactorTask | candy/src/netstack/reactor.cc:178-200 | takes the first task of the reactor's queue and does what it says |
| SessionTcps.SessionTcp.Handle | candy/src/netstack/session_tcp.cc:87-444 | every callback, poll event and queued task is one step of the run of the connection, of the kind the call says, whatever lwIP and the kernel answer |
| SessionTcps.SessionTcp.BacklogBounded | candy/src/netstack/session_tcp.cc:393-404 | between any two calls the backlog is exact and below HIGH_WATER + 65536, and the forward bytes fit in the receive window |
| TcpInvariant.StepInv | candy/src/netstack/session_tcp.cc:87-444 | every step of either thread keeps the data, forward and control invariants |
| TcpInvariant.RunInv | candy/src/netstack/session_tcp.cc:87-444 | so they hold in every state of every run |
| TcpInvariant.PumpInv | candy/src/netstack/session_tcp.cc:151-191 | a pump keeps the invariants, whether or not it fails half-way |
| TcpInvariant.FlushInv | candy/src/netstack/session_tcp.cc:334-381 | a flush keeps the invariants |
| TcpInvariant.ReadInv | candy/src/netstack/session_tcp.cc:387-424 | reading keeps the invariants |
| TcpInvariant.ReadBound | candy/src/netstack/session_tcp.cc:393-409 | reading that tests the high-water mark before each read of at most 65536 bytes ends less than that above it |
| TcpTheorems.RunDuplicates | candy/src/netstack/session_tcp.cc:166-171 | bytes are delivered twice exactly in runs with a pump that fails half-way |
| TcpTheorems.BackwardConservation | candy/src/netstack/session_tcp.cc:151-191 | while the lwIP side is open backwardBytes counts what is buffered or queued, and the bytes read are those accepted, then the buffer, then the queued data in order, exactly when no pump failed half-way |
| TcpTheorems.HalfFailedPumpDuplicates | candy/src/netstack/session_tcp.cc:169-171 | a run in which lwIP is given 1, 1, 2 after the fd was read 1, 2 |
| TcpTheorems.BackwardBounded | candy/src/netstack/session_tcp.cc:393-404 | the backlog stays below HIGH_WATER + 65536 and never below 0 under every interleaving |
| TcpTheorems.StepCloses | candy/src/netstack/session_tcp.cc:186-190 | an lwIP side that closes unasked closes because an end of file met an empty buffer |
| TcpTheorems.LwipClosesDrained | candy/src/netstack/session_tcp.cc:193-200 | on the end-of-file path lwIP has accepted every byte read, once and in order, exactly when no pump failed half-way |
| TcpTheorems.ForwardConservation | candy/src/netstack/session_tcp.cc:334-379 | bytes received are bytes sent then forwardBuf; unacknowledged bytes are forwardBuf and pendingRecved, within one receive window; pending bytes have an acknowledgement queued |
| TcpTheorems.NoStuckPause | candy/src/netstack/session_tcp.cc:220-240 | a connected open session before end of file watches READ, or is paused above LOW_WATER, or has its resumption queued, which does watch READ |
| TcpTheorems.PausesExactly | candy/src/netstack/session_tcp.cc:387-404 | reading pauses exactly when the backlog comes to 256 KiB or more, and then watches nothing |
| TcpTheorems.ResumesExactly | candy/src/netstack/session_tcp.cc:220-240 | a pump that does not fail queues one resumption exactly if reading was paused and at most 64 KiB are left |
| TcpTheorems.BothSidesClose | candy/src/netstack/session_tcp.cc:242-287 | no half-dead session: each side is gone, or what takes it down is queued |
| TcpTheorems.ForwardLiveExactly | candy/src/netstack/session_tcp.cc:334-399 | a step leaves WRITE watched or a flush queued for the forward bytes exactly unless it is one of four named ones |
| TcpTheorems.ForwardLiveThroughout | candy/src/netstack/session_tcp.cc:334-399 | in every state of a run somebody is in charge of the forward bytes if and only if no step of the run is one of those |
| TcpTheorems.EofStrandsForwardBytes | candy/src/netstack/session_tcp.cc:410-415 | a run in which an end of file leaves a byte in forwardBuf with WRITE unwatched and no flush queued, and the fd is then closed with the byte unsent |
| TcpTheorems.PauseStrands | candy/src/netstack/session_tcp.cc:393-401 | a run in which a pause drops WRITE while a byte waits for the landing fd; reading resumes, and the session is left open, idle and reading with the byte unsent |
| TcpTheorems.ResumeStrands | candy/src/netstack/session_tcp.cc:232-238 | a run in which WRITE is watched again during the pause and the queued resumption drops it, with the same end |
| TcpTheorems.ClosedForGood | candy/src/netstack/session_tcp.cc:336-338 | nothing is sent once the fd is closed, and it stays closed |
| TcpTheorems.ForwardTailExactly | candy/src/netstack/session_tcp.cc:426-444 | when a step closes the fd, all that lwIP had delivered has been sent if and only if forwardBuf was empty before that step |
| TcpTheorems.CloseDropsForwardBytes | candy/src/netstack/session_tcp.cc:88-95 | a run in which the other side closes and the fd is closed with a byte unsent |
| TcpConnecting.ConnectsExactly | candy/src/netstack/session_tcp.cc:291-332 | an fd event connects if and only if the fd is writable without failure and SO_ERROR is clear; a failure or a set SO_ERROR closes, sending nothing |
| TcpConnecting.ConnectingFlushes | candy/src/netstack/session_tcp.cc:328-332 | on connecting the bytes that came before it are sent as far as the kernel takes them, and WRITE stays watched exactly if some are left |
| TcpConnecting.UnconnectedSendsNothing | candy/src/netstack/session_tcp.cc:334-340 | in every run nothing is sent before the connection |
| TcpConnecting.FailedConnectSendsNothing | candy/src/netstack/session_tcp.cc:313-326 | in every run a connection that fails closes its fd for good and never sends |
| TcpConnecting.FlushWatchesWrite | candy/src/netstack/session_tcp.cc:361-379 | after a flush WRITE is watched if and only if bytes are left, or none had been blocked and it was watched anyway; so it is dropped once a blocked buffer has drained |
| TcpConnecting.ClosingQueuedOnce | candy/src/netstack/session_tcp.cc:263-287 | in every run at most one task that takes the fd away and one that tells the stack are queued, and none before the session is closing |
| Stun.ParseOfEncode | candy/src/netstack/stun.h:46-82 | every class, 12-bit method, transaction id and 4-aligned body up to 65532 bytes parses back, per section 6 of RFC 5389 |
| Stun.EncodeOfParse | candy/src/netstack/stun.h:46-82 | every accepted buffer is such an encoding |
| Stun.ParseExactlyEncodings | candy/src/netstack/stun.h:40-82 | a buffer is accepted with a class and id if and only if it encodes a message with them |
| UdpModel.EndpointKeyInjective | candy/src/netstack/udpmux.h:68-70 | distinct endpoints have distinct keys |
| UdpModel.InverseUnique | candy/src/netstack/udpmux.cc:164-182 | the owner table determines its reverse index |
| UdpModel.StepInverse | candy/src/netstack/udpmux.cc:58-294 | every call keeps the reverse index the inverse of the owner table |
| UdpModel.ReverseIndexExact | candy/src/netstack/udpmux.cc:58-294 | in every reachable state the reverse index is the exact inverse, with no empty sets |
| UdpMuxes.UdpMux.SendFromSource | candy/src/netstack/udpmux.cc:81-134 | the new tables after a send and whether the datagram is passed on, as `UdpTrace.DroppedExactly` says; the call is one step of the run |
| UdpMuxes.UdpMux.Claim | candy/src/netstack/udpmux.cc:104-107 | a first claim enters both tables |
| UdpMuxes.UdpMux.OnSourceGone | candy/src/netstack/udpmux.cc:136-150 | exactly the source's endpoints go; the call is one step of the run |
| UdpMuxes.UdpMux.EraseSource | candy/src/netstack/udpmux.cc:138-149 | the loop over the reverse index removes exactly the source's endpoints from both tables |
| UdpMuxes.UdpMux.ReapEndpoints | candy/src/netstack/udpmux.cc:168-182 | the erasing loop keeps exactly the endpoints idle at most 30 s and their index |
| UdpMuxes.UdpMux.ReapTxns | candy/src/netstack/udpmux.cc:184-191 | the erasing loop keeps exactly the transactions aged at most 40 s |
| UdpMuxes.UdpMux.Reap | candy/src/netstack/udpmux.cc:164-203 | endpoints at 30 s, transactions at 40 s; the call is one step of the run |
| UdpMuxes.UdpMux.Demux | candy/src/netstack/udpmux.cc:250-294 | whom a datagram goes to, what it touches, consumes and counts; the call is one step of the run |
| UdpMuxes.UdpMux.Shutdown | candy/src/netstack/udpmux.cc:58-79 | all tables are emptied together |
| UdpMuxes.UdpMux.OwnerHasClaim | candy/src/netstack/udpmux.cc:101-119 | between any two calls an owner in the table has an open claim among the calls made |
| UdpTrace.TxnExactly | candy/src/netstack/udpmux.cc:86-93 | a transaction is in the table if and only if its source sent the Request and nothing has consumed, replaced, expired or cleared it since |
| UdpTrace.ResponseDelivery | candy/src/netstack/udpmux.cc:257-266 | a response goes to a source if and only if that source's registration of the id is open |
| UdpTrace.RegistrationConsumedOnce | candy/src/netstack/udpmux.cc:260-263 | a second response with an id is delivered to a source only if that source has sent a Request with the id since the first |
| UdpTrace.OwnerExactly | candy/src/netstack/udpmux.cc:101-119 | an endpoint is owned by a source, last active at a time, if and only if the source sent data to it while no claim on it was open, nothing has released that claim (the source going, a shutdown, a reap after 30 s without traffic), and the last traffic was then; all said of the events alone |
| UdpTrace.DataDelivery | candy/src/netstack/udpmux.cc:271-290 | any other datagram goes to a source if and only if that source's claim on its endpoint is open |
| UdpTrace.OthersRefused | candy/src/netstack/udpmux.cc:108-114 | while a claim is open every data send of another source to the endpoint is dropped |
| UdpTrace.DroppedExactly | candy/src/netstack/udpmux.cc:84-133 | a datagram of an inner source is dropped if and only if it is not STUN and another source's claim on its endpoint is open; every other is passed on |
| UdpTrace.DropsCounted | candy/src/netstack/udpmux.cc:108-290 | the three counters are the numbers of data sends refused, of responses nobody waits for and of other datagrams nobody owns the endpoint of |
| UdpConverged.IterationCovered | candy/src/netstack/netstack.cc:254-283 | one turn of the loop keeps every owner and waiting source alive, and their sessions no less recent than the mux says, up to 20 s |
| UdpConverged.RunCovered | candy/src/netstack/netstack.cc:272-305 | so at every loop boundary of every run |
| UdpConverged.EveryReceiverLives | candy/src/netstack/netstack.cc:535-543 | whoever the mux may name has a live session, so no attributed datagram is lost on its way in |
| UdpConverged.NetStack.OnUdpRecv | candy/src/netstack/netstack.cc:466-517 | the first datagram of a source creates the mux if need be, then the session; a mux that fails to start leaves neither |
| UdpConverged.NetStack.OnPcbRecv | candy/src/netstack/session_udp.cc:78-99 | the session's activity is refreshed before the mux sends |
| UdpConverged.NetStack.HandleFromFd | candy/src/netstack/udpmux.cc:250-294 | demultiplexing followed by injection |
| UdpConverged.NetStack.InjectUdpReply | candy/src/netstack/netstack.cc:535-543 | refreshes the session if there is one with a pcb |
| UdpConverged.NetStack.ReapIdleUdpSessions | candy/src/netstack/netstack.cc:285-305 | the erasing loop keeps exactly the sessions idle at most 60 s |
| UdpConverged.NetStack.Iteration | candy/src/netstack/netstack.cc:254-283 | one task, then every 10 s sessions are reaped before the mux; the turn is one step of the run, after which everyone the mux may name has a live session |
| UdpSessions.TaskSession | candy/src/netstack/session_udp.cc:78-151 | a task creates or refreshes exactly the sessions of the sources it carries a datagram from or to |
| UdpSessions.SessionAges | candy/src/netstack/session_udp.cc:78-151 | a session's time is that of the last datagram either way; there is no session without a mux |
| UdpSessions.SessionsExactly | candy/src/netstack/netstack.cc:272-305 | a source has a session if and only if a datagram of its opened one and no reap since, 10 s or more after the one before, found it idle for over 60 s |
| UdpSessions.MuxRuns | candy/src/netstack/netstack.cc:519-533 | the mux of a loop run is in the state its own run leads to, driven by every datagram of a source with a session, every one from outside and a reap every 10 s; it exists once a datagram came when it could be started |
| Peers.Peer.constructor | candy/src/peer/peer.cc:37-47 | a new peer is in INIT with the shortest back-off and no addresses |
| Peers.Peer.TryConnect | candy/src/peer/peer.cc:51-55 | starts from INIT, or from FAILED when asked to retry |
| Peers.Peer.UpdateState | candy/src/peer/peer.cc:128-149 | activity time, reset, back-off and state, and whether the state changed |
| Peers.Peer.HandlePubInfo | candy/src/peer/peer.cc:176-206 | the address learnt, the transition, and whether the own address is published |
| Peers.Peer.HandleStunResponse | candy/src/peer/peer.cc:208-219 | leaves PREPARING by whether the wide address is known |
| Peers.Peer.Tick | candy/src/peer/peer.cc:221-270 | every timeout, as `PeerTheorems.TimeoutsExactly` says, and everything a tick sends, as `PeerTheorems.TickSends` says |
| Peers.Peer.HandleHeartbeatMessage | candy/src/peer/peer.cc:272-300 | addresses, acknowledgement and connection after a heartbeat, and the delay probe on connecting |
| Peers.Peer.SendHeartbeatMessage | candy/src/peer/peer.cc:316-344 | exactly the addresses a heartbeat goes to in each state |
| PeerTheorems.AddressesMatchState | candy/src/peer/peer.cc:128-149 | in every run: no wide or real address and ack 0 in INIT, WAITING, FAILED; real address and ack 1 in CONNECTED; ack 1 exactly with a real address |
| PeerTheorems.TransitionsFollowDiagram | candy/src/peer/peer.cc:176-300 | no event takes an edge outside the diagram |
| PeerTheorems.DiagramIsTight | candy/src/peer/peer.cc:176-300 | and each edge of it is the last step of some run |
| PeerTheorems.ConnectedExitsOnTimeout | candy/src/peer/peer.cc:246-258 | CONNECTED is left exactly by a tick 3 s or more after the last acknowledged heartbeat, to INIT |
| PeerTheorems.TimeoutsExactly | candy/src/peer/peer.cc:221-270 | WAITING is left for INIT if and only if by a tick retry seconds or more after the last activity; PREPARING, SYNCHRONIZING and CONNECTING give up if and only if by a tick 10 s or more after it, PREPARING also without STUN |
| PeerTheorems.WaitingSince | candy/src/peer/peer.cc:128-149 | in WAITING the last activity is the tick that entered it |
| PeerTheorems.BackoffWaited | candy/src/peer/peer.cc:259-262 | in every run, from entering WAITING to leaving it for INIT at least min(30 * 2^k, 3600) seconds pass |
| PeerTheorems.StunResponseExactly | candy/src/peer/peer.cc:208-219 | PREPARING goes to CONNECTING on a STUN response if and only if the wide address is known, else to SYNCHRONIZING; no other state is left |
| PeerTheorems.HeartbeatsReach | candy/src/peer/peer.cc:316-344 | an address gets a heartbeat if and only if it is the real one in CONNECTED, the wide one in CONNECTING, or the local one in PREPARING, SYNCHRONIZING or CONNECTING |
| PeerTheorems.TickSends | candy/src/peer/peer.cc:221-258 | for each action, exactly when a tick does it |
| PeerHistory.LocalRanges | candy/src/peer/peer.cc:21-31 | an address is local if and only if it is in 10/8, 172.16/12, 192.168/16, 169.254/16 or 239.255/16 |
| PeerHistory.ResetsForget | candy/src/peer/peer.cc:128-149 | going to INIT, WAITING or FAILED forgets all addresses, the acknowledgement and the delay |
| PeerHistory.RequestsStart | candy/src/peer/peer.cc:51-55 | a request to connect starts from INIT, and from FAILED exactly if it is to retry |
| PeerHistory.AnnouncementsAdvance | candy/src/peer/peer.cc:176-206 | which states a published address leads to, for every state; a local one changes nothing else |
| PeerHistory.HeartbeatsConnect | candy/src/peer/peer.cc:272-300 | a heartbeat that is not to be ignored connects if and only if it acknowledges; an ignored one changes nothing |
| PeerHistory.AddressesLearnt | candy/src/peer/peer.cc:176-300 | in every run the wide, local and real address are the last learnt since the last reset, a local real address given up for a local one only |
| PeerHistory.ActivityExactly | candy/src/peer/peer.cc:128-149 | in every run the activity time is that of the last transition, acknowledging heartbeat, or address published while preparing |
| PeerHistory.TicksCounted | candy/src/peer/peer.cc:269 | ticks are counted modulo 2^32 from the random start |
| PeerHistory.StaysConnected | candy/src/peer/peer.cc:246-258 | in every run a peer stays CONNECTED as long as at every tick the last acknowledging heartbeat is less than 3 s old |
| PeerTheorems.LanAddressSticks | candy/src/peer/peer.cc:286-291 | a real address on the local network stays there until a reset |
| PeerTheorems.RetryIsExponential | candy/src/peer/peer.cc:141-145 | retry is min(30 * 2^k, 3600), k the WAITING-to-INIT transitions since its last reset |
| PeerTheorems.TickMakesProgress | candy/src/peer/peer.cc:221-270 | a measure that every tick before rest decreases |
| PeerTheorems.Quiescence | candy/src/peer/peer.cc:221-270 | left alone with ticks a second apart, any peer is in INIT or FAILED after 11 + retry ticks, at most 3611, and stays there |
| Handshake.AckMeansHeard | candy/src/peer/peer.cc:293-295 | a peer acknowledges only after it processed a heartbeat of the other side, and without a reset since |
| Handshake.ConnectedMeansAcked | candy/src/peer/peer.cc:297-299 | a peer is CONNECTED only since it processed an acknowledging heartbeat |
| Handshake.ConnectedBothWays | candy/src/peer/peer.cc:272-300 | CONNECTED implies, in order: own heartbeat sent, processed by the other side, acknowledging heartbeat sent back without a reset in between, processed here |
| RouteModel.AdvertsAreTheChanges | candy/src/peer/manager.cc:715-772 | the table changes exactly where the node advertises, and then to what it says |
| RouteModel.OnlyTheNextHopWorsens | candy/src/peer/manager.cc:737-769 | a route is lost or grows only on news from its own next hop |
| RouteModel.OffersTaken | candy/src/peer/manager.cc:744-769 | a distance of 0 to 1000 measured, or reported by a next hop there is a route to, becomes the route unless the one in use has another next hop and is no longer; nothing else changes |
| RouteModel.WithdrawalsTaken | candy/src/peer/manager.cc:716-742 | any other distance removes all routes through a next hop that withdraws itself, or else the one route through it to the destination |
| RouteModel.StrangersIgnored | candy/src/peer/manager.cc:756-760 | a report by a next hop there is no route to changes and advertises nothing |
| RouteModel.AdvertisedExactly | candy/src/peer/manager.cc:715-772 | a destination is advertised if and only if its route was removed or an offer of it taken |
| RouteNetwork.DeliverInv | candy/src/peer/manager.cc:559-573 | a ROUTE message never names its own sender as destination, so it never takes a direct branch, and delivering it keeps every distance witnessed |
| RouteNetwork.MeasureInv | candy/src/peer/manager.cc:547-556 | a measured delay keeps every distance witnessed |
| RouteNetwork.LoseInv | candy/src/peer/manager.cc:723-735 | losing a peer keeps every distance witnessed |
| RouteNetwork.RunInv | candy/src/peer/manager.cc:694-772 | so they are in every run of any number of nodes over a lossy, duplicating, reordering network |
| RouteNetwork.RoutesAreWalks | candy/src/peer/manager.cc:756-768 | every stored rtt is exactly the length of a walk through the next hop: measured delays of 0 to 1000 plus the cost of every relay passed; nobody has a route to itself |
| RouteNetwork.MessagesAreWalks | candy/src/peer/manager.cc:694-713 | so is every rtt in a message that is not a withdrawal, the sender's cost added |
| RouteNetwork.DeliveryImproves | candy/src/peer/manager.cc:756-768 | in every run, after a report by a known next hop the destination is no farther than by way of it |
| RouteNetwork.MeasurementImproves | candy/src/peer/manager.cc:744-754 | in every run, after a measurement the peer is no farther than measured |
| RouteNetwork.LossErases | candy/src/peer/manager.cc:723-735 | in every run, after the loss of a peer exactly the routes through it are gone |
| RouteNetwork.ChangesAnnounced | candy/src/peer/manager.cc:694-772 | in every run, a route that is new or changed is sent on with the node's own cost added, a lost one is withdrawn; nothing else in any table changes |
| PeerManagers.PeerManager.constructor | candy/src/peer/manager.cc:34-43 | routeCost is clamped to 0..1000 |
| PeerManagers.PeerManager.SendRtMessage | candy/src/peer/manager.cc:694-713 | exactly one message to each connected peer, with the relay's cost added except to a withdrawal |
| PeerManagers.PeerManager.EraseThrough | candy/src/peer/manager.cc:723-735 | the erasing loop removes exactly the routes through a next hop and withdraws each once to each connected peer |
| PeerManagers.PeerManager.UpdateRtTable | candy/src/peer/manager.cc:715-772 | the new table, as `RouteModel.OffersTaken` and `RouteModel.WithdrawalsTaken` say, and the messages sent, for any entry |
| PeerManagers.PeerManager.HandleDelayMessage | candy/src/peer/manager.cc:527-557 | probes are reflected to connected peers, echoes become direct routes |
| PeerManagers.PeerManager.HandleRouteMessage | candy/src/peer/manager.cc:559-573 | routes to the node itself are ignored |
| PeerManagers.PeerManager.SendPacket | candy/src/peer/manager.cc:154-186 | a packet goes to its route's next hop if connected and the sending succeeds, else to its destination if connected and the sending succeeds, else nowhere |
| PeerManagers.PeerManager.TickPeer | candy/src/peer/peer.cc:246-258 | right after a peer drops out of CONNECTED no route goes through it, the others are as before, and each connected peer got exactly one withdrawal per route removed |
| PeerManagers.PeerManager.Tick | candy/src/peer/manager.cc:366-371 | after a tick of all peers the table holds exactly the routes whose next hop did not drop out; each route removed was withdrawn exactly once to every peer still connected and at most once to any other, and nothing else was sent |
| Net.FromPrefix | candy/src/core/net.cc:79-85 | the loop sets exactly the first prefix bits, of any prefix, and for one over 32 goes on for prefix - 32 bits behind the address |
| Net.ToPrefix | candy/src/core/net.cc:87-95 | the loop counts the leading ones |
| Net.PrefixRoundTrip | candy/src/core/net.cc:79-95 | toPrefix gives back what fromPrefix was given, 0 to 32 |
| Net.MaskRoundTrip | candy/src/core/net.cc:79-95 | a mask survives being written as a prefix if and only if none of its ones follows a zero |
| Net.ValueInjective | candy/src/core/net.cc:24-28 | an address is determined by its number |
| Subnets.Split | candy/src/core/net.cc:56-61 | a number is its network bits times the subnet size plus its host bits, which are its remainder |
| Subnets.NetValue | candy/src/core/net.cc:129-131 | Net() rounds the number down to a multiple of the subnet size |
| Subnets.ValidExactly | candy/src/core/net.cc:140-148 | isValid holds if and only if the host part is neither 0 nor the size less one |
| Subnets.NextParts | candy/src/core/net.cc:133-138 | Next() keeps the network and adds one to the host part, wrapping at the subnet size and at 2^32 |
| Subnets.NthValue | candy/src/core/net.cc:133-138 | k steps of Next() from h give Net + ((h - Net + k) mod 2^(32-p)) |
| Subnets.OneCycle | candy/src/core/net.cc:133-138 | two steps of the walk meet if and only if they are a multiple of the subnet size apart |
| Subnets.CycleCovers | candy/src/core/net.cc:133-138 | one round reaches exactly the addresses of the subnet |
| Dhcp.RoundEnds | candy/src/websocket/server.cc:307-312 | the search comes back to the cursor after one round and not before |
| Dhcp.WebSocketServer.FindAddress | candy/src/websocket/server.cc:303-315 | the loop ends within 2^(32-p) iterations at the first address of the walk that is valid or free, and moves the cursor there |
| Dhcp.WebSocketServer.HandleExptTunMsg | candy/src/websocket/server.cc:280-320 | no DHCP or no CIDR closes the connection; an address of the DHCP network that is free or one's own is granted as asked, without moving the cursor, and whatever is granted without moving it is free or one's own; else the search decides |
| DhcpTheorems.SearchResult | candy/src/websocket/server.cc:303-315 | an assigned address lies in the DHCP subnet, differs from the cursor and is the first that is valid or free; failing means all others are invalid and taken |
| DhcpTheorems.OneInThree | candy/src/core/net.cc:140-148 | of three successive addresses one is valid, in any subnet of four or more; in smaller ones none is |
| DhcpTheorems.SearchClosed | candy/src/websocket/server.cc:307-313 | the search looks at three addresses at most |
| DhcpTheorems.ExhaustedExactly | candy/src/websocket/server.cc:309-312 | it reports a full network if and only if the subnet has one address, or two with the other taken |
| DhcpTheorems.GoodExactly | candy/src/websocket/server.cc:313 | the assigned address is valid and free if and only if the next address is both, or is neither and the one after it is both, and so on, three deep |
| DhcpTheorems.TakenAddressAssigned | candy/src/websocket/server.cc:313 | from 10.0.0.1/24 the search assigns 10.0.0.2 although it is taken |
| DhcpTheorems.InvalidAddressAssigned | candy/src/websocket/server.cc:313 | from 10.0.0.254/24 with nothing taken it assigns the broadcast address 10.0.0.255 |
| DhcpTheorems.OrdinarySearch | candy/src/websocket/server.cc:307-313 | while nobody has logged in under a network or broadcast address, the search takes the next address, good exactly if it is valid and not taken |
| DhcpTheorems.CursorWalks | candy/src/websocket/server.cc:303-315 | then each search of a run moves the cursor by one, taken or not |
| DhcpTheorems.AssignmentsRepeat | candy/src/websocket/server.cc:303-315 | then two searches assign the same address if and only if they are a multiple of the subnet size apart |
| DhcpTheorems.DirectInSubnet | candy/src/websocket/server.cc:292-302 | addresses granted as asked for stay in the DHCP subnet if and only if the mask asked with is no shorter or cuts off a one of the network |
| DhcpTheorems.DirectOutsideSubnet | candy/src/websocket/server.cc:292-302 | under 10.0.0.1/24 a client that asks for 10.0.5.5/16 is granted it |
| RoutePush.UpdateSysRoute | candy/src/websocket/server.cc:446-472 | what is sent is the frames of the rules that apply; the buffer stays within its capacity at every append, which WsCtx.Append requires, so that the header pointer stays valid |
| RoutePush.HandleRouteMsg | candy/src/websocket/client.cc:292-303 | the client's loop yields as many entries as the size byte says, from the frame and what lies behind it; a frame without a header none |
| RoutePush.DecodingDependsExactly | candy/src/websocket/client.cc:293-302 | what is decoded depends on the frame alone if and only if it is as long as its size byte says |
| RoutePush.ShortFrame | candy/src/websocket/client.cc:298-302 | a frame that counts one entry and holds none is decoded to the 12 bytes behind it |
| RoutePush.PushRoundTrip | candy/src/websocket/server.cc:446-472 | every frame is a ROUTE message whose size byte is its number of entries, 1 to 101, and it fits in 1500 bytes; decoding all frames gives exactly the selected entries in order |
| RoutePush.FrameCount | candy/src/websocket/server.cc:460-466 | n entries take n / 101 frames, rounded up |
| RoutePush.SelectedExactly | candy/src/websocket/server.cc:452-459 | rule by rule and in their order, the entry of each rule that applies is selected and no other |
| RoutePush.AppliesExactly | candy/src/websocket/server.cc:453 | a rule setSdwan accepts is pushed if and only if the client's number lies in the block of its device subnet |
| Subnets.BlockExactly | candy/src/core/net.cc:129-131 | for a proper mask, masking an address gives a network if and only if the address's number lies in the network's block |
| RoutePush.EntryFields | candy/src/websocket/server.cc:454-458 | an entry reads back as destination network, mask and next hop |
| FlowModel.AnswerReverses | candy/src/tun/tun.cc:164-202 | the packet with its ends exchanged parses to the reversed five-tuple |
| FlowModel.ParseExactlyPackets | candy/src/tun/tun.cc:164-202 | a packet has a five-tuple if and only if it is an IPv4 header of 20 to 60 bytes (section 3.1 of RFC 791) with protocol 6 or 17, fragment offset 0 and the tuple's addresses, followed by its two ports and anything |
| FlowModel.FromRoutedExactly | candy/src/tun/tun.cc:147-162 | for rules with proper masks, a source is routed if and only if its number lies in the block of some rule |
| FlowTables.Tun.EraseExpired | candy/src/tun/tun.cc:255-262 | the erasing loop keeps exactly the flows idle at most 300 s |
| FlowTables.Tun.FindOldest | candy/src/tun/tun.cc:265-270 | the inner loop finds an oldest flow |
| FlowTables.Tun.ReapIdleFlows | candy/src/tun/tun.cc:247-273 | scans every 10 s or over capacity; keeps as much as fits in 4096, nothing evicted newer than anything kept |
| FlowTables.Tun.RecordInitiatedFlow | candy/src/tun/tun.cc:204-215 | a packet with ports is recorded, then the table is reaped, as one step of the run; any other changes nothing |
| FlowTables.Tun.IsReturnTraffic | candy/src/tun/tun.cc:147-162 | the packet's inner source is in a routed network, as `FlowModel.FromRoutedExactly` says |
| FlowTables.Tun.IsReturnByFlow | candy/src/tun/tun.cc:217-245 | by the reversed five-tuple if there are ports (`FlowModel.ParseExactlyPackets`), refreshing it, as one step of the run, else by the routes |
| FlowTables.Tun.HandlePacket | candy/src/tun/tun.cc:119-145 | an IPIP packet of a new flow goes to the user space stack whole, any other to the kernel unwrapped; an IPIP packet refreshes the flow it answers, nothing else touches the table |
| FlowTables.Tun.TableBounded | candy/src/tun/tun.cc:247-273 | between any two packets the table holds at most 4096 flows |
| FlowTrace.Bounded | candy/src/tun/tun.cc:247-273 | after any sequence of packets at most 4096 flows are in the table |
| FlowTrace.AgesExact | candy/src/tun/tun.cc:213-242 | a flow's time in the table is when it was last recorded or looked up |
| FlowTrace.ScansWhenDue | candy/src/tun/tun.cc:247-262 | after a record 10 s or more after the last scan no flow is idle for over 300 s |
| FlowTrace.NoScanKeepsAll | candy/src/tun/tun.cc:247-252 | after a record before that, without overflow, every flow is still there |
| FlowTrace.MemberExactly | candy/src/tun/tun.cc:204-273 | a flow is in the table if and only if it was recorded and has neither expired nor been evicted since |
| FlowTrace.EvictedOldest | candy/src/tun/tun.cc:263-272 | what is evicted was touched no later than anything kept, and the table is then full |
| FlowTrace.EvictsExactly | candy/src/tun/tun.cc:263-272 | unless another flow is exactly as old, a flow is evicted if and only if over 4096 flows have not expired and it is the oldest of them |
| FlowTrace.NewestStays | candy/src/tun/tun.cc:213-214 | a flow just recorded stays, even over capacity, if any flow that has not expired is older |
| FlowTrace.AnswerRecognised | candy/src/tun/tun.cc:217-245 | the answer to a packet is return traffic if and only if the packet's flow is remembered |

## Left out

- lwIP, kernel sockets, Poco's PollSet and the platform tun drivers: foreign calls. What they answer is arbitrary, within what their interfaces allow: lwIP calls back only while the pcb lives and delivers only inside the receive window.
- Steps inside a handler: the test and the store at candy/src/netstack/session_tcp.cc:393-394 are two operations, between which the other thread may resume; the model's step is a whole handler or task, and the pause theorem holds at that granularity.
- SessionTcps.SessionTcp: its fields are grouped into three records, one for the connection and one for each direction, and the two task queues are this session's part of the program's queues.
- SessionTcps.SessionTcp.SendLoop: a send that fails after earlier ones in the same flush loses their acknowledgement, as in the code; the session is then closing.
- UdpConverged: SessionUdp is a value of two fields there, pcb and last activity; the per-source mode with its own sockets is not modelled.
- UdpConverged.RunCovered: assumes that a datagram passes from its session to the mux within 20 s, which the difference between the 60 s and the 40 s limits leaves room for.
- UdpConverged.NetStack.OnUdpRecv: udp_pcb cloning inside lwIP is taken as one pcb a source; what becomes of the client after a failed start is not modelled.
- UdpModel: warnings and the printing of drop statistics; the sending of accepted datagrams by the reactor.
- NetStack's map from inner sources to VPN peers, and the wrapping of what lwIP outputs.
- PeerModel: one reading of the clock serves a whole step, and the published addresses always parse.
- Peers.Peer.SendHeartbeatMessage: encryption, signatures and what the socket does with the bytes; messages are taken as authentic.
- RouteNetwork: rtt is an unbounded integer, so overflow after very many updates is not modelled; a node with routeCost 0 takes no part.
- PeerManagers.PeerManager.HandleDelayMessage: the measured delay is an input, not the difference of two clocks.
- PeerManagers.PeerManager.SendPacket: whether a sending succeeds is an input, one for each of the two attempts.
- PeerManagers.PeerManager.Tick: the order in which the peers tick decides which of those that drop out still get a withdrawal; discovery messages and the STUN request that follow the loop over the peers.
- The attribute walk over STUN responses in candy/src/peer/manager.cc:435-456, which does not skip the padding that section 15 of RFC 5389 asks for.
- Net.FromPrefix: what the bits behind the address belong to for a prefix over 32; the mask is then all ones.
- Dhcp.WebSocketServer.HandleExptTunMsg: length, signature and the text of the CIDR are taken as checked and parsed; of a client's context only its vmac is kept.
- RoutePush.HandleRouteMsg: what lies behind a frame in memory is an input, assumed long enough to be read.
- RoutePush.UpdateSysRoute: the pointer into the buffer is not modelled, only the bound on its size that keeps it valid.
- FlowTables.Tun.ReapIdleFlows: which of several equally old flows goes is left open, as the hash map's order leaves it.
- FlowTables.Tun: the choice of a next hop and the wrapping of outgoing packets in candy/src/tun/tun.cc:48-94; locks.
- Message queues between modules, configuration, TLS and WebSocket connections, start and end of threads.
