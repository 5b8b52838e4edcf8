# ZetaMesh: a verified model

ZetaMesh is a peer-to-peer virtual network. Nodes exchange IP packets over UDP, directly where they can
reach each other and through a gateway otherwise; the gateway introduces nodes to each other. On Windows
the node loads its network driver library from memory. This project models the two places where the
program is hardest to get right, and proves what they guarantee:

* **The tunnel protocol**, gateway and nodes together, over a network that loses, duplicates and reorders
  datagrams. `Protocol.Mesh` is the whole system as a step machine; the network is the set of datagrams
  ever sent, from which a receive step may pick any at any time. The theorems speak about every run.
* **The in-memory PE loader** (`memmod`): the size check and layout of an image, the 32-bit section
  addresses, the page-protection runs, base relocation with its MOVW/MOVT case, and the blocks of memory
  that are reserved and released.

## How it is laid out

| files | what they hold |
|---|---|
| `Wire` | type-byte framing, the abstract protobuf codec, what each receiver makes of a frame |
| `NotifierModel`, `NodeModel` | the transitions of gateway and node as functions |
| `Gateway`, `NodeObjects` | the same operations as classes that update their fields, each proved equal to its transition |
| `Protocol`, `ProtocolInvariant`, `ProtocolSteps`, `ProtocolTheorems`, `ProtocolProgress` | the mesh, its invariant, the proof that every step keeps it, the theorems, and that delivery and handshake can complete |
| `Roaming`, `ProtocolRoams` | the mesh with arbitrary and changing addresses, acknowledgement safety there, and that it covers the other mesh |
| `NoEviction`, `DirectPath`, `KeepUp`, `Opening`, `StartUp` | with fixed addresses no connection is evicted; exactly when the direct path works; staying connected, opening a tunnel, and both from the initial state |
| `Registry`, `Forwarding`, `Throttle`, `Keepalive` | runs of one node, what becomes of a packet, open requests, one connection's timer |
| `Bookkeeping`, `Dispatch`, `Channels`, `Wakeup` | runs of the notifier: its numbers, its workers, what its channels carry, its lock and wake-up channel |
| `Buffers` | the reused receive buffers and the slices queued from them, as arrays |
| `Arithmetic`, `Bits`, `Words` | division, bitwise operations on naturals, little-endian words |
| `Image`, `Sections`, `SectionPages` | `copySections` and the checks before it; `finalizeSections`; what its calls do to memory pages |
| `Thumb`, `Relocation`, `RelocationPass`, `RelocationTable`, `RelocationLaws`, `RelocationDirectory` | one instruction pair, one site, one pass, the nested loops over the table, what they come to by type number, and how far they go |
| `Reservation` | `LoadLibrary`'s reservations, `check4GBBoundaries`, `Free` |
| `Loader` | `LoadLibrary` from the size check to the protection of the sections |

## What the proofs found

* `retryPacket.counter` is never incremented, so the `MaxRetrySend` branch is unreachable: a notification
  is resent until it is acknowledged (`Bookkeeping.ScanSendsAll`, `Bookkeeping.NotifierIsLedger`).
* `handleClosed` deletes by virtual address, so a replaced connection that shuts down evicts its
  successor. `Registry.NewestCanBeEvicted` is such a run and `Registry.EvictionExactly` says exactly when
  the newest connection stays; with fixed addresses it always does (`NoEviction.RegisteredUntilReturn`).
* A node that has timed out closes its socket while its peer stays Established
  (`DirectPath.PeerStopsListening`); what the peer sends then is received by nobody. The direct path works
  if and only if the receiver has a socket open to the sender (`DirectPath.DirectPathExactly`).
* Frames carry one type byte more than the packet, but both buffers hold 4096 bytes: a device packet
  survives the direct hop if and only if it has at most 4095 bytes (`Wire.DirectHopLossless`).
* With zero section alignment `alignUp` is constantly zero and the size check accepts anything
  (`Image.ZeroAlignmentDefeatsCheck`).
* A HIGH relocation ignores carries out of the low half. Passes over images with HIGH sites compose, and
  can be undone, exactly under the stated conditions on the deltas (`RelocationPass.PassesCompose`,
  `RelocationPass.PassRestores`). A MOVW/MOVT pair can never be moved back
  (`Thumb.CannotMoveBack`, `RelocationPass.PassBackSucceeds`).
* An image that could not be loaded at its preferred base and has no relocation table is loaded unmoved:
  `isRelocated` becomes false, but nothing reads it (`Loader.Move`, `Loader.LoadLibrary`).
* Comments in `copySections` claim support for section alignments below the page size. A section with data
  that starts within a page is then recorded at its page (`Image.SectionAddressesExactly`), with three
  consequences, each with its exact condition. A run may end before its last section does
  (`SectionPages.SubPageRunFallsShort`, `RunReachesExactly`, `ReachesExactly`). Sections of different runs
  may share a page, and a decommit may free a page of a section that is kept
  (`SectionPages.DecommitHitsKept`, `SeparateExactly`, `HitsExactly`). Recorded addresses may go back, and
  the size of a run wraps around (`SectionPages.RunSizeWraps`, `FoundInOrder`). Sections that start on pages
  are safe with any alignment (`SectionPages.OnPagesSuffices`).
* The 4 GB check rejects an image that ends exactly on a 4 GB boundary, although all its bytes would do
  (`Image.BytesLosslessExactly`).
* `performBaseRelocation` does not stop at the end of the directory but at a block with address zero. It
  relocates what the directory says if and only if no block there has address zero and the word behind it is
  zero (`RelocationDirectory.WalksDirectoryExactly`); otherwise it stops early, or goes on into other bytes
  (`RelocationDirectory.WalkGoesOn`).

## Hypotheses

* Nodes are honest; the codec's unmarshal inverts its marshal; addresses are compared as canonical strings.
  For delivery, reachability and progress each node has one fixed virtual address and one fixed UDP address
  of its own (`Protocol.Config.Ok`). Acknowledgement safety, the registry, the throttle and the notifier
  need nothing of the kind.
* On a run of that mesh: no datagram sent is longer than the 4096-byte buffers, and fewer than 2^63
  notifications are issued (`Protocol.Bounded`). For acknowledgement safety only notifications and
  acknowledgements have to fit (`Roaming.Bounded`).
* `handlePacket`, `close` and the reads of peer addresses in `OpenTunnel` are atomic steps. The program
  shares its decoded messages between goroutines (node/handler.go:28-32), checks before it closes
  (node/connection.go:141-147), and reads addresses that heartbeats may be writing
  (api/api_server.go:97-100).
* A send on a full channel is a step that is not enabled.
* Whether a dial, a write, a commit, a protection change or a reservation succeeds, what the clock shows,
  which nonce is drawn, and in which order a map is iterated are arbitrary.
* A section's file pointer plus size does not wrap. Reserved blocks are not empty, start on pages and lie
  within the address space.
* The sections of an image are in the order of their addresses and do not overlap in their real sizes, and
  none goes back when it is recorded (`SectionPages.NoneGoesBack`). The section alignment is arbitrary; only
  what is said of alignment pages needs a power of two.
* The walk over the relocation blocks comes to an end, and its sites lie in the image, apart from each other
  and from the table (`RelocationTable.WellFormed`).

## Model

| member | source | states |
|---|---|---|
| `Wire.FramingRoundTrip` | codec/codec.go:26-41 | both receivers recover exactly what was framed, and each ignores frames meant for the other |
| `Wire.FramingInjective` | codec/codec.go:26-41 | the bytes on the wire determine the payload |
| `Wire.FrameTypes` | protos/api.proto:17-25 | the first byte of every frame is the number of its type |
| `Wire.DirectHopLossless` | node/handler.go:55-69 | a device packet survives framing and the receive buffer if and only if it has at most 4095 bytes |
| `ProtocolTheorems.Delivery` | node/node.go:186-212 | in every run, whatever waits for a node's device was, byte for byte, read earlier from some node's device with that destination, whether it came direct, by relay or by loop-back |
| `Roaming.AcknowledgementSafety` | node/handler.go:129-173 | in every run, for nodes at any and at changing addresses and frames that may reach anyone, a notification that the gateway no longer holds was received by some node, which in the very step in which it acknowledged it had the advertised peer registered at the advertised address; so a failed dial is never acknowledged, not even after the old connection was closed for it |
| `Roaming.NotificationStep` | node/handler.go:129-173 | whether the peer is open, unknown or registered elsewhere, an acknowledgement is sent only if the peer is then registered at the notification's address |
| `Roaming.StepKeeps` | gateway/notifier.go:103-163 | every step keeps the invariant that all notifications and acknowledgements under way, queued or forgotten are accounted for |
| `ProtocolRoams.RunRoams` | node/handler.go:55-177 | every run of the mesh with fixed addresses is, moment by moment, a run of the roaming mesh |
| `ProtocolTheorems.AcknowledgementSafety` | gateway/processor.go:68-70 | with fixed addresses, from the roaming mesh: the node that received and acknowledged a forgotten notification, with the peer registered in that step, is the one it was addressed to |
| `ProtocolTheorems.EstablishedMeansReachable` | node/handler.go:98-127 | in every run, behind an Established connection from a to b there are, in this order, the step in which a sent a Ping, the step in which b, which held a connection to a, handled it, the step in which b sent a Pong, and the step in which a handled it |
| `ProtocolTheorems.FactHappened` | node/handler.go:55-96 | every fact of the history records a step or a state of the run, so the theorems are about the run itself |
| `ProtocolSteps.StepInv` | node/handler.go:55-177 | every step of nodes and gateway keeps the invariant of the mesh |
| `ProtocolSteps.TraceInv` | gateway/notifier.go:58-163 | the invariant holds at every moment of every bounded run |
| `Channels.RetryKeeps` | gateway/notifier.go:102-113 | a retry scan over entries with zero counters puts only the entries' packets into the workers' channels and drops no entry |
| `ProtocolProgress.DirectPathDelivers` | node/node.go:186-202 | from every state with an Established running connection, a peer that listens to the sender, and room in the queues, a packet read for the peer can reach the peer's device queue; nodes receive only through open sockets |
| `DirectPath.DirectPathExactly` | node/connection.go:129-139 | by steps of the sender and one receive, the packet can reach the peer if and only if the peer listens to the sender |
| `DirectPath.PeerStopsListening` | node/connection.go:107-124 | from every state with an Established connection whose peer has had no Pong for two keepalive periods, the peer's tick and the end of its loop close its socket and leave the sender Established |
| `ProtocolProgress.RelayPathDelivers` | node/node.go:203-209 | from every state with a Connecting connection and a peer that the gateway knows, a packet can reach the peer's device queue by relay, whatever the gateway has queued before it |
| `ProtocolProgress.DrainWorker` | gateway/notifier.go:66-87 | a worker can send all that is in its channel, each packet to its destination |
| `ProtocolProgress.HandshakeCompletes` | node/connection.go:98-119 | two nodes with running connections to each other can reach Established |
| `ProtocolProgress.Round` | node/connection.go:84-119 | a tick that pings, the peer's Pong and its receipt leave the connection Established and as fresh as the Pong, and change nothing else but the peer's queue |
| `KeepUp.TicksPingExactly` | node/connection.go:100-116 | a tick of a running loop sends a Ping for the peer, and nothing else, exactly if it is a connecting tick before or a keepalive tick in time after establishment; it closes exactly if more than 10 seconds have passed since the last Pong |
| `KeepUp.StaysUp` | node/connection.go:107-116 | two Established connections to each other can be kept up through any number of ticks, none more than 10 seconds after the one before, and are then as fresh as the last tick |
| `Opening.OpensCrosswise` | gateway/notifier.go:129-149 | a request between known peers enters, under the next two numbers, a notification to the source about the destination and one to the destination about the source, and leaves a token |
| `Opening.OpenConnects` | api/api_server.go:77-88 | from every state of every bounded run in which the gateway knows two nodes, a request, a scan, the sends and one receive at each can lead to two nodes that hold connections to each other |
| `StartUp.TunnelFromNothing` | node/node.go:214-229 | from the initial state, heartbeats, a read that starts a marked request, the request, a scan on its token, dials, acknowledgements, loops and Pings can lead to two nodes Established with each other, no notification left and the mark gone |
| `StartUp.HeartbeatArrives` | node/node.go:234-250 | a heartbeat makes the gateway know the node at its own address and changes nothing else |
| `StartUp.AckArrives` | gateway/processor.go:68-70 | an acknowledgement removes its entry and changes nothing else |
| `ProtocolProgress.DrainAll` | node/connection.go:118-119 | a running loop can send its whole queue, each frame to the peer, and changes nothing else |
| `Registry.RegistryInvariant` | node/handler.go:142-177 | in every reachable state of a node each key of the table is its connection's peer address and no connection whose loop has returned is registered |
| `Registry.StepKeepsRegistry` | node/handler.go:55-177 | every step of a node keeps that, removes no connection and moves none backwards |
| `Registry.ConnectionsOnlyAdvance` | node/connection.go:66-127 | between any two moments no connection goes from Established to Connecting or from finished to running |
| `Registry.LoopRunsAtMostOnce` | node/connection.go:66-69 | the loop of a connection is entered at most once and left at most once |
| `Registry.RepeatedNotification` | node/handler.go:142-152 | at any later moment of a run at which a connection is registered, a notification that asks for it changes nothing and only repeats the acknowledgement |
| `Registry.ReplacedConnectionDies` | node/handler.go:150-157 | a notification that finds its peer registered at another address closes that connection for good, whether or not the new dial succeeds |
| `Registry.EvictionExactly` | node/handler.go:175-177 | over any stretch of a run the newest connection for a peer, once registered, stays registered if and only if no loop of any connection for that peer returns; if one does, the peer is not registered at all |
| `Registry.NewestCanBeEvicted` | node/handler.go:142-177 | a run in which the newest, live connection is no longer registered |
| `NoEviction.RegisteredUntilReturn` | node/handler.go:142-177 | with fixed addresses, in every run a connection is registered if and only if its own loop has not returned, so nothing is evicted |
| `NoEviction.OneLiveConnection` | node/handler.go:142-177 | with fixed addresses no node ever has two live connections to one peer |
| `Throttle.RequestThrottle` | node/node.go:214-229 | two open requests for one destination less than a second apart have a completed request for it between them |
| `Throttle.MarkStays` | node/node.go:214-229 | as long as no request for a destination completes, its mark is at least as late as the last request |
| `Forwarding.AsksExactly` | node/node.go:214-222 | without a connection the packet is dropped and a request is started and marked exactly if none was started less than a second before and has not completed |
| `Forwarding.AsksAgain` | node/node.go:223-229 | after a request has completed, the next packet without a connection starts another one at once |
| `Forwarding.GoesDirect` | node/node.go:192-202 | with an Established connection the packet is queued there behind its type byte or, if 128 frames wait, dropped, and nothing else happens |
| `Forwarding.GoesByRelay` | node/node.go:203-209 | with another connection the packet goes to the gateway, and only there |
| `Forwarding.LoopsBack` | node/node.go:152-159 | a packet for the node itself comes back to its device, and only there |
| `Forwarding.TakesData` | node/handler.go:61-69 | a data frame is taken exactly while fewer than 512 packets wait for the device, and queued whole |
| `Keepalive.KeepaliveBound` | node/connection.go:107-117 | with ideal ticks a connection never closes within 10 seconds of its last Pong or its creation, and is closed by 15 seconds after it or, if its loop starts more than 10 seconds after it, by the loop's first tick |
| `Keepalive.ConnectionsBegin` | node/handler.go:159-170 | every connection begins as that bound assumes, with the moment of its making as its last sign of life |
| `Bookkeeping.NotifierIsLedger` | gateway/notifier.go:103-155 | in every run the notifier holds exactly the issued and unacknowledged notifications, under their numbers and with retry counter zero |
| `Bookkeeping.NumbersAreConsecutive` | gateway/notifier.go:129-149 | the k-th notification ever issued has number k + 1, and the two of one open advertise each destination to the other |
| `Bookkeeping.ScanSendsAll` | gateway/notifier.go:103-113 | a scan sends every entry once, in iteration order, and drops none |
| `Bookkeeping.StrayAck` | gateway/notifier.go:151-155 | acknowledging any number that is not live, 0 included, changes nothing |
| `Dispatch.FairDispatch` | gateway/notifier.go:89-100 | slot k of worker i holds the packet sent in turn k * workers + i: each packet arrives once and in order |
| `Dispatch.RoundRobin` | gateway/notifier.go:97-100 | every packet sent is found at its place, and each worker's count is its share |
| `Dispatch.BalancedDispatch` | gateway/notifier.go:97-100 | no two workers' counts differ by more than one |
| `Wakeup.NoLostWakeup` | gateway/notifier.go:58-63 | in every interleaving an undispatched notification implies a token, a dispatcher that is woken or scanning and has yet to visit it, or an opener between insert and notify |
| `Wakeup.ScanLeavesNothing` | gateway/notifier.go:103-127 | after a scan every live notification has been sent to a worker at least once |
| `Wakeup.QuietMeansDispatched` | gateway/notifier.go:117-126 | a dispatcher with no token and no opener at work has dispatched everything |
| `Wakeup.OpenerOpens` | gateway/notifier.go:129-149 | the steps of an opener come to one open, with one more token unless 16 are there |
| `GatewayObjects.TunnelNotifier.OpenTunnelBetween` | gateway/notifier.go:129-149 | the new state is the old one with two crosswise entries and at most one more token |
| `GatewayObjects.TunnelNotifier.NotifyReader` | gateway/notifier.go:58-63 | a token is added unless the channel is full |
| `GatewayObjects.TunnelNotifier.Acknowledge` | gateway/notifier.go:151-155 | the entry is removed and nothing else changes |
| `GatewayObjects.TunnelNotifier.RelayTo` | gateway/notifier.go:157-163 | the packet is appended to the queue if there is room |
| `GatewayObjects.TunnelNotifier.RetryAll` | gateway/notifier.go:103-113 | the loop visits every key once, in an order of the iteration's choosing, and its effect is the scan in that order |
| `GatewayObjects.TunnelNotifier.DispatchQueued` | gateway/notifier.go:123-124 | the head of the queue moves to the worker whose turn it is |
| `GatewayObjects.TunnelNotifier.WorkerTake` | gateway/notifier.go:66-87 | the head of the channel is framed according to its kind for its destination |
| `GatewayObjects.Server.Heartbeat` | api/api_server.go:90-112 | the peer's address is the datagram's source, whether the peer is new or its record is updated in place; all other peers are as before |
| `GatewayObjects.Server.OpenTunnelRequest` | api/api_server.go:61-88 | which of the five outcomes is returned for every version and every combination of known peers; only a full success reaches the notifier |
| `GatewayObjects.ProcessDatagram` | gateway/processor.go:44-82 | the effect on peer table and notifier for every datagram, and which datagrams are reported as unrecognized, malformed or for an unknown peer |
| `NotifierModel.ProcessesFrames` | gateway/processor.go:60-79 | for every frame that is sent: what a heartbeat, an acknowledgement and relayed data change, and that nothing else changes anything |
| `NotifierModel.RelayWaits` | gateway/notifier.go:157-163 | relayed data for a known peer has to wait exactly while 16 packets are queued |
| `NotifierModel.ExhaustedIsDropped` | gateway/notifier.go:106-111 | an entry is dropped by a scan exactly if its counter is above ten, and then not sent |
| `NodeObjects.MeshNode.HandleDatagram` | node/handler.go:55-84 | the effect on the node for every datagram and environment |
| `NodeObjects.MeshNode.Dispatch` | node/handler.go:86-96 | the effect of every message meant for a node |
| `NodeObjects.MeshNode.OnPingMessage` | node/handler.go:98-111 | a Pong is queued on the registered connection and nothing else changes |
| `NodeObjects.MeshNode.OnPongMessage` | node/handler.go:113-127 | the registered connection is refreshed and Established and nothing else changes |
| `NodeObjects.MeshNode.OnOpenTunnelMessage` | node/handler.go:129-173 | acknowledge, replace or give up, exactly as the transition says |
| `NodeObjects.MeshNode.ForwardPacket` | node/node.go:186-230 | direct, relay, throttled or new request, exactly as the transition says |
| `NodeObjects.MeshNode.ReadDevice` | node/node.go:152-161 | loop-back goes to the device queue, everything else is forwarded |
| `NodeObjects.MeshNode.LoopTurn` | node/connection.go:98-126 | one round of the loop; when it returns, the connection's address leaves the table |
| `NodeObjects.Connection.Close` | node/connection.go:141-147 | closing is idempotent |
| `Buffers.Readers.HandleAll` | node/node.go:127-184 | for any number of connections, after any number of reads into the reused buffers and of slices taken, the queues hold, and the device and the peers were given, exactly the bytes that were put in |
| `Buffers.QueueOrder` | node/node.go:166-180 | what was queued towards the device is at any later moment written in its turn or still in its place |
| `Buffers.PeerQueueOrder` | node/connection.go:118-119 | the same on every connection |
| `Buffers.FramedArrives` | codec/codec.go:38-41 | what one node frames, up to 4095 bytes, reaches the other's device queue unchanged |
| `Buffers.Readers.Queue` | node/handler.go:61-68 | a data frame queues a copy of its payload that shares no memory with any buffer |
| `Buffers.Readers.ReadDevice` | node/node.go:137-161 | so does a device packet, looped back or framed for a connection |
| `Buffers.Readers.Refill` | node/connection.go:129-138 | a read into any of the buffers leaves all queues as they were |
| `Buffers.Framed` | codec/codec.go:38-41 | the frame is a new slice with the type byte in front |
| `Bits.AlignUpBounds` | node/tun/wintun/memmod/memmod_windows.go:589-591 | for any non-zero alignment, rounding up does not go below the value and adds less than the alignment |
| `Bits.AlignUpPow2` | node/tun/wintun/memmod/memmod_windows.go:589-591 | for powers of two it gives the least multiple at or above the value |
| `Bits.AlignDownPow2` | node/tun/wintun/memmod/memmod_windows.go:585-587 | for powers of two rounding down gives the greatest multiple at or below the value |
| `Image.LastSectionEnd` | node/tun/wintun/memmod/memmod_windows.go:397-411 | the loop finds the greatest section end |
| `Image.ImageSize` | node/tun/wintun/memmod/memmod_windows.go:397-415 | exactly when the check passes; a passed check means that every section ends within the image if and only if the alignment is not zero or no section has anything to place; with zero alignment it always passes |
| `Image.ZeroAlignmentDefeatsCheck` | node/tun/wintun/memmod/memmod_windows.go:412-415 | with zero alignment a section that does not fit passes the check |
| `Image.CopySections` | node/tun/wintun/memmod/memmod_windows.go:44-96 | every write lies inside the image; the image holds each copied section's bytes, and copying stops at the first section that is incomplete or cannot be committed |
| `Image.SectionIsCopied` | node/tun/wintun/memmod/memmod_windows.go:86-90 | sections that do not overlap end up with their own bytes of the file, each at its offset, or with zeros |
| `Image.RestIsUntouched` | node/tun/wintun/memmod/memmod_windows.go:44-96 | memory outside all sections keeps its bytes |
| `Image.LosslessExactly` | node/tun/wintun/memmod/memmod_windows_64.go:16-18 | storing 32 bits of an address and OR-ing in the base's high half gives the address back if and only if both lie in the same 4 GB |
| `Image.LosslessIffCheckPasses` | node/tun/wintun/memmod/memmod_windows_64.go:20-21 | that holds from the start of the image to the address behind its last byte, inclusive, if and only if the 4 GB check lets the base pass |
| `Image.BytesLosslessExactly` | node/tun/wintun/memmod/memmod_windows_64.go:20-21 | it holds for all bytes of the image if and only if the check passes or the image ends exactly on the next 4 GB boundary |
| `Image.SectionAddressesExactly` | node/tun/wintun/memmod/memmod_windows.go:61-92 | after the size check and the 4 GB check, the stored address of a section expands to its place in the image, or with data to the page of its place; so it is exact if and only if the section has no data or starts on a page |
| `Sections.FinalizeSections` | node/tun/wintun/memmod/memmod_windows.go:162-204 | for any alignment and for sections whose recorded addresses do not decrease, overlapping or not, the loop makes exactly the calls of the runs of a partition in which a section continues a run if and only if the guard says so, and stops at the first call that fails |
| `Sections.RunsAreUnique` | node/tun/wintun/memmod/memmod_windows.go:175-186 | there is only one such partition |
| `Sections.FinalizeSection` | node/tun/wintun/memmod/memmod_windows.go:120-160 | the one call, or none, for a run; a run that is kept gets the one protection that its flags determine, over its whole range |
| `Sections.MergeIsRun` | node/tun/wintun/memmod/memmod_windows.go:175-186 | merging the next section into the run of its predecessors gives the run of all of them |
| `Sections.MergedFlagsAreUnion` | node/tun/wintun/memmod/memmod_windows.go:179-183 | a run's flags are the union of its members', and it is discardable if and only if all of them are |
| `Sections.RunOf` | node/tun/wintun/memmod/memmod_windows.go:162-204 | every section belongs to a run, which starts no later and, if recorded sections do not overlap, spans it |
| `Sections.RunsOrdered` | node/tun/wintun/memmod/memmod_windows.go:177-178 | for any alignment, runs are ordered and disjoint: each ends before the rounded start of the next |
| `Sections.RunsApart` | node/tun/wintun/memmod/memmod_windows.go:177-178 | for alignments that are powers of two, no two runs share an alignment page |
| `SectionPages.SeparateExactly` | node/tun/wintun/memmod/memmod_windows.go:162-204 | no section shares a memory page with the call of another run if and only if every run begins on a page after the end of all earlier sections |
| `SectionPages.DecommitIsSafe` | node/tun/wintun/memmod/memmod_windows.go:125-134 | under that condition no page freed by a decommit holds a byte of a section that is kept |
| `SectionPages.HitsExactly` | node/tun/wintun/memmod/memmod_windows.go:125-134 | a call hits a page of a section if and only if their page ranges overlap |
| `SectionPages.DecommitHitsKept` | node/tun/wintun/memmod/memmod_windows.go:125-134 | an input with alignment 0x200 on which a decommit frees the page of a section that is kept |
| `SectionPages.KeptIsProtected` | node/tun/wintun/memmod/memmod_windows.go:136-157 | every non-empty kept section gets one protection, that which the flags of its run determine, which grants all the access it asks for, copies on write only if no section of the run asks to read, and, if recorded sections do not overlap, spans it |
| `SectionPages.RunReachesExactly` | node/tun/wintun/memmod/memmod_windows.go:175-186 | the call of a run touches every page of its sections if and only if its last section, from where it is recorded, ends on the page where it really ends |
| `SectionPages.ReachesExactly` | node/tun/wintun/memmod/memmod_windows.go:86-92 | for a section with data that is so if and only if its offset in its first page and that of its last byte from a page start stay together below a page |
| `SectionPages.OtherCallsStayAway` | node/tun/wintun/memmod/memmod_windows.go:120-160 | if runs begin on pages of their own, no call but that of its own run touches a page of a section |
| `Sections.ProtectionTable` | node/tun/wintun/memmod/memmod_windows.go:136-150 | the table gives the only protection with execution and writing exactly as flagged, reading when reading or writing is flagged, copy-on-write exactly for writing without reading, and no caching exactly if flagged |
| `Sections.FlagMasks` | node/tun/wintun/memmod/syscall_windows.go:187-228 | the flags are the bits of the PE format's masks |
| `Sections.DecommittedExactly` | node/tun/wintun/memmod/memmod_windows.go:125-134 | a non-empty run of discardable sections is decommitted exactly if it starts on its alignment and is the last or fills whole alignment units |
| `Sections.ContinuesExactly` | node/tun/wintun/memmod/memmod_windows.go:177-178 | for powers of two, a section continues a run exactly if it shares an alignment page with the section before it |
| `Sections.Measure` | node/tun/wintun/memmod/memmod_windows.go:98-110 | the real size of a section is that of its data or else, by its flags, that of all initialized or all uninitialized data, or zero |
| `SectionPages.PlacedPieces` | node/tun/wintun/memmod/memmod_windows.go:162-174 | the headers that copySections leaves behind, expanded, are found on the pages where their sections start; for sections that start on pages, with any alignment, exactly there |
| `SectionPages.FoundInOrder` | node/tun/wintun/memmod/memmod_windows.go:86-92 | recorded addresses keep the order of two sections unless the first has no data and starts within a page on which the second, with data, starts later, and only then |
| `SectionPages.RunSizeWraps` | node/tun/wintun/memmod/memmod_windows.go:185 | an input on which they go back and the size of the run wraps around |
| `SectionPages.SubPageRunFallsShort` | node/tun/wintun/memmod/memmod_windows.go:86-92 | with alignment 0x200 and a section that starts within a page, a run ends too early and the tail of that section gets no protection |
| `SectionPages.OnPagesSuffices` | node/tun/wintun/memmod/memmod_windows.go:162-204 | if sections start on pages, or are recorded exactly and rounded to multiples of the page size, runs are on pages of their own and reach their sections |
| `Thumb.SucceedsExactly` | node/tun/wintun/memmod/memmod_windows.go:265-294 | a pair is relocated if and only if the first word is a MOVW and, when the delta reaches the high half, the second is a MOVT and the sum fits 32 bits |
| `Thumb.AddsDelta` | node/tun/wintun/memmod/memmod_windows.go:265-294 | on success the constant read back is the old one plus the delta without wrap-around, and opcode and register bits are unchanged |
| `Thumb.OverflowIsError` | node/tun/wintun/memmod/memmod_windows.go:285-288 | a sum of 2^32 or more is always an error |
| `Thumb.WithImmFields` | node/tun/wintun/memmod/memmod_windows.go:274-277 | the masks and shifts replace the immediate and nothing else |
| `Thumb.ImmFields` | node/tun/wintun/memmod/memmod_windows.go:267-268 | the immediate is imm4, i, imm3 and imm8 of the ARM encodings, from their bit positions |
| `Thumb.Encodings` | node/tun/wintun/memmod/memmod_windows.go:269-271 | the opcode tests accept exactly the encodings of MOVW and MOVT |
| `Thumb.Composes` | node/tun/wintun/memmod/memmod_windows.go:265-294 | two successful relocations of a pair are one by the sum of the deltas |
| `Thumb.CannotMoveBack` | node/tun/wintun/memmod/memmod_windows.go:265-294 | after a move by a non-zero delta, a move by the negated delta fails |
| `Relocation.WordMoves` | node/tun/wintun/memmod/memmod_windows.go:248-263 | the word at a site grows by the delta, or the part of it that the type says, modulo the width |
| `Relocation.PairAdds` | node/tun/wintun/memmod/memmod_windows.go:265-294 | the constant stored in a pair's eight bytes grows by the delta's low half |
| `Relocation.PatchComposes` | node/tun/wintun/memmod/memmod_windows.go:247-298 | two relocations of a site compose, at a HIGH site if and only if the low halves do not carry |
| `Relocation.PatchRestores` | node/tun/wintun/memmod/memmod_windows.go:247-298 | the negated delta restores a site, at a HIGH site if and only if the delta's low 16 bits are zero |
| `Relocation.BackSucceeds` | node/tun/wintun/memmod/memmod_windows.go:247-298 | the negated delta is accepted everywhere but at a pair to which something was added |
| `RelocationDirectory.PerformBaseRelocation` | node/tun/wintun/memmod/memmod_windows.go:226-305 | over a well-formed walk, success means that each entry has had the effect of its type number on the word at its address and no other byte changed; failure means that this holds up to the first entry that cannot be applied, which is of type 7 or of an unsupported type; the blocks walked are those of the directory if and only if that ends cleanly; without a table nothing changes |
| `RelocationLaws.PassApplies` | node/tun/wintun/memmod/memmod_windows.go:241-298 | by type number: 10 adds the delta to 8 bytes, 3 to 4 bytes, 2 to 2 bytes, 1 adds its high half to 2 bytes, 7 adds it to the constant of a MOVW/MOVT pair, 0 does nothing, others do not succeed; all other bytes stay |
| `RelocationLaws.RefusedEntry` | node/tun/wintun/memmod/memmod_windows.go:292-297 | a walk that fails stops at an entry of type 7 or of an unsupported type |
| `RelocationDirectory.WalksDirectoryExactly` | node/tun/wintun/memmod/memmod_windows.go:227-233 | the walk is over exactly the blocks within the directory's size if and only if none of them has address zero and the word behind the directory is zero |
| `RelocationDirectory.DirectoryIsRelocated` | node/tun/wintun/memmod/memmod_windows.go:226-305 | then a successful pass relocates the sites of the directory's own blocks |
| `RelocationDirectory.WalkGoesOn` | node/tun/wintun/memmod/memmod_windows.go:233-302 | an image whose directory has no site and in which the walk goes on into other bytes and relocates a word there |
| `RelocationTable.PatchSite` | node/tun/wintun/memmod/memmod_windows.go:247-298 | the switch does to a site's bytes what its type says, and nothing to other bytes |
| `RelocationTable.PatchPair` | node/tun/wintun/memmod/memmod_windows.go:265-294 | the MOVW/MOVT case on the image, including what is stored before a failure |
| `RelocationTable.TableReadsSame` | node/tun/wintun/memmod/memmod_windows.go:232-241 | relocating leaves the table itself readable |
| `RelocationPass.DoneStep` | node/tun/wintun/memmod/memmod_windows.go:241-299 | relocating one more site leaves earlier sites relocated and untouched bytes untouched |
| `RelocationPass.PassIsUnique` | node/tun/wintun/memmod/memmod_windows.go:226-305 | sites and delta determine the image after a pass |
| `RelocationPass.PassesCompose` | node/tun/wintun/memmod/memmod_windows.go:226-305 | two successful passes are one successful pass by the sum of the deltas if and only if there is no HIGH site or the low halves do not carry |
| `RelocationPass.PassByZero` | node/tun/wintun/memmod/memmod_windows.go:226-305 | a pass by zero changes nothing |
| `RelocationPass.PassBackSucceeds` | node/tun/wintun/memmod/memmod_windows.go:226-305 | a pass by the negated delta succeeds if and only if there is no MOVW/MOVT pair or the delta's low half is zero |
| `RelocationPass.PassRestores` | node/tun/wintun/memmod/memmod_windows.go:226-305 | it restores the image if and only if there is no HIGH site or the delta's low 16 bits are zero |
| `Reservation.Module.Check4GBBoundaries` | node/tun/wintun/memmod/memmod_windows_64.go:20-36 | every block is the current base or on the list, never both; all listed blocks cross a boundary; on success the base does not |
| `Reservation.Module.Reserve` | node/tun/wintun/memmod/memmod_windows.go:427-446 | at most two reservations and the 4 GB loop: what is reserved is held once, and the base is usable and within 4 GB |
| `Reservation.Module.LoadLibrary` | node/tun/wintun/memmod/memmod_windows.go:418-446 | a successful load accounts for every block it reserved; a failed one, which needs a refusal or a later error, has released each exactly once |
| `Reservation.Module.Free` | node/tun/wintun/memmod/memmod_windows.go:524-545 | releases every block held, in order, and forgets it; only reserved blocks are ever released |
| `Reservation.Module.FreeList` | node/tun/wintun/memmod/memmod_windows.go:22-26 | the loop releases the elements of the list |
| `Reservation.EachBlockOnce` | node/tun/wintun/memmod/memmod_windows.go:524-545 | what Free releases it releases exactly once: every block held, and no other |
| `Reservation.LoadAndFree` | node/tun/wintun/memmod/memmod_windows.go:373-545 | after a load and any positive number of calls of Free, everything reserved by the load has been released exactly once and nothing else has |
| `Loader.LoadLibrary` | node/tun/wintun/memmod/memmod_windows.go:394-499 | the whole load, for any section alignment: success means a block of its own within 4 GB, all sections inside it, the file's headers and sections in place and moved by the delta at the sites of the table and nowhere else and, if sections start on pages, every kept section protected on all its pages as it asks by one call and touched by no other; failure has one of the listed reasons, a refused relocation being one of the base chosen, and leaves nothing reserved |
| `Loader.LayOut` | node/tun/wintun/memmod/memmod_windows.go:448-472 | headers, then sections, in zeroed memory |
| `Loader.Move` | node/tun/wintun/memmod/memmod_windows.go:474-485 | the image is relocated exactly when it moved and has a table; moving succeeds if and only if no site refuses |
| `Loader.DeltaMovesBase` | node/tun/wintun/memmod/memmod_windows.go:475-476 | the preferred base plus the delta is where the image is |
| `Loader.PointersMove` | node/tun/wintun/memmod/memmod_windows.go:475-482 | in a loaded image every word at an entry of type 10 is as far from the base as it was from the preferred base in the file |
| `Loader.PointerLoaded` | node/tun/wintun/memmod/memmod_windows.go:475-482 | so a pointer to a place in the file is one to that place in the loaded image |
| `Loader.Protect` | node/tun/wintun/memmod/memmod_windows.go:494-499 | across copySections and finalizeSections, if sections start on pages, each that is kept is protected by one call and touched by no other |
| `Loader.SectionByteLoaded` | node/tun/wintun/memmod/memmod_windows.go:465-485 | byte j of a section outside all relocations is byte j of its data in the file, or zero, in the loaded image |
| `Loader.HeaderByteLoaded` | node/tun/wintun/memmod/memmod_windows.go:461-463 | a byte of the headers outside all sections and relocations is the file's byte, one behind them zero |

## Left out

* HTTP client and server wiring, JSON results, command-line flags and version strings; an open request is
  a step, and the version check of `OpenTunnel` is a parameter.
* The bytes of protobuf messages: the codec is a pair of functions with unmarshal inverting marshal.
* IPv4 parsing, subnet filtering, sockets, port reuse and name resolution: the destination is a parameter
  of a device read, and a read of the device or of a socket that fails is no step.
* TUN devices, Wintun calls, DLL resources; import tables, thread-local callbacks, entry points and exports
  of the loader: system calls and raw memory.
* Malformed PE files: wrapping file pointers, zero-size relocation blocks and tables without an end are
  excluded by preconditions.
* Logging and the randomness of nonces.
* The limit of 256 packets in a worker's channel: a full channel only delays the dispatcher.
* Overflow of the dispatcher's `roundTrip` counter, which takes 2^63 packets.
* Two goroutines inside `handlePacket` at once, which share the decoded message objects.
* 32-bit builds of the loader.
* The loader's updates of its own copy of the headers (image base, section addresses), which it keeps in
  the image: the model holds them apart from the image's bytes.
* Loader.LoadLibrary: does not model the import addresses that `buildImportTable` writes into the image
  between relocation and protection; that it may fail is modelled.
* Protocol.Bounded: a run with longer datagrams is not covered by delivery and reachability; what happens to
  one frame of any length is `Wire.DirectHopLossless`.
* ProtocolProgress.RelayPathDelivers: exhibits the steps that deliver a packet, not that a scheduler takes
  them.
* Keepalive.KeepaliveBound: assumes that ticks are served when they are due.
* Sections.FinalizeSections: needs recorded addresses that do not decrease; where they do, the size of a run
  wraps around (`SectionPages.RunSizeWraps`), and what the calls then do is not modelled.
