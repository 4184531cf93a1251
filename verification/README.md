# Verified models of Iros

Iros is a small operating system: a kernel with its own network stack, memory manager and file systems, and a set
of build tools. This project models nine of its parts in Dafny and proves what they promise.

- **IPv4 fragmentation and reassembly** (`IpFragments`, `IpReassembly`, `IpReassemblyBuffer`): the hole-descriptor
  algorithm of RFC 815, on values and again on the byte buffer in which hole records share space with data.
- **TCP** (`TcpControlBlock`, `TcpInvariants`, `TcpWindow`, `TcpStream`, `TcpOffers`, `TcpProgress`, `TcpTeardown`,
  `TcpAcks`, `TcpHandshake`, `TcpSocket`): the control block, its receive window, two endpoints over a lossy network, how
  much they send and send again, acknowledgements, how a connection opens and closes, and the socket whose methods
  update the block in place. Sequence numbers are unbounded, because the code compares them without wrap-around.
- **Copy-on-write memory** (`PhysicalPages`, `CopyOnWrite`, `ForkRefinement`, `ProcessIsolation`,
  `ProcessMemory`, `Machine`): reference-counted pages, faults, fork and exit, proved to look like a kernel that copies
  at fork, and then what each process reads.
- **Address space** (`AddressSpace`, `Protection`, `UserMemory`): a list of regions that acts like a page-indexed map.
- **Path resolution** (`PathWalk`, `PathMeaning`, `TnodeTree`, `Vfs`): what a path means, with links, dot-dot and mounts,
  over reference-counted entries.
- **ext2 block iterator** (`Ext2Blocks`, `Ext2Iterator`, `Ext2Seek`, `Ext2Walker`): the incremental walk of the
  direct, single, double and triple indirect tree, in read mode.
- **Block cache** (`BlockCache`): a write-through cache by last use in front of a disk.
- **Set propagation** (`SetPropagation`): the parser generator's semi-naive loops.
- **Build order** (`BuildOrder`): the port manager's topological sort.

Code that changes state is a class whose methods are proved against functions on values, or directly against the
property; theorems over all runs are about those functions. Locks are taken to make each operation one step. Clocks,
allocators and devices appear as parameters, as event choices, as given sequences of successes and failures, or as
nondeterministic results.

Some properties hold only under a condition that the code does not check; there the exact condition is proved:

- `IpReassembly.RoundTrip`: a payload above 65515 bytes is cut up and sent but never delivered.
- `IpReassemblyBuffer.GrowthFits`: the buffer is grown by the packet length alone, without the hole record behind it.
- `TcpInvariants.AcknowledgeExact` and `SynAckKeepsData`: advancing a full ring buffer by nothing empties it, so data
  waiting behind an unacknowledged SYN is lost when the buffer is full (`kernel/util/ring_buffer.c:18-22`).
- `TcpInvariants.LastAckExact`: LAST-ACK assumes that any forward acknowledgement covers the FIN. Together with the
  lost data these are the two hazards of `TcpInvariants.NextExact`.
- `TcpWindow.CountedFinWindow` and `NextWindowExact`: a FIN that is processed again is taken for a segment longer than
  the buffer. `FinHandshakeSpoils` and `FinOnSynSpoils` reach this from a passive and from an active open: a FIN on
  the segment that completes the open is counted, and then the block enters ESTABLISHED. `RunWindow` has that guard.
- `TcpOffers.AckSendsWithin` and `AckEdge`: an acknowledgement sends before it looks at the window it brings, and takes
  no window from a segment older than the last that set it. `AckOvershoots` shows two of these endpoints leaving each
  other's windows.
- `TcpProgress.RetransmitExact`: a segment sent again with SYN and FIN both pending, of which only the SYN was sent, has
  a data length of -1 in 16 bits.
- `TcpTeardown.HandshakeTells`: a FIN counted on the segment that completes the open is forgotten by the state.
- `TcpHandshake.AcceptableExact`: the acceptance test looks at the number behind a segment instead of its last one.
  `LostAckResets` shows a connection reset by its own handshake, and `RepeatedFin` a FIN that is not acknowledged again.
- `AddressSpace.UnmapKeepsBacking` and `Protection.ProtectMeans`: a range strictly inside one region leaves parts
  with the wrong object offset. `Protection.AfterProtect` says page by page what is recorded, also for regions that
  may not be cut.
- `UserMemory.ProtFlags`: the flag against execution is lost in a 32-bit integer, so `Space.ProtectRange` promises what can
  be written and reached, and that nothing is ever protected against execution.
- `PathMeaning.ResolveMount`: two dots out of a mounted root leave that mount in force (`DotDotLeads`).
- `Ext2Seek.SeekRun` and `SeekRunExact`: after a seek into the double or triple indirect area the walk repeats a leaf
  and, in the triple area, later a middle block.
- `Vfs.Resolver.GetPath`: the name buffer is made for 15 names and looked at too late.
- `BlockCache.Device.Read`: a read of nothing is an error.
- `BlockCache.StaleExact`: a page whose write to the disk failed stays in the cache with the new data.

## Model

| member | source | states |
|---|---|---|
| IpFragments.SendFragmented | kernel/net/ip.c:256-328 | the sending loop emits exactly the list of fragments, in order, up to the first packet the interface refuses, and reports whether all were taken |
| IpFragments.PiecesAreFragments | kernel/net/ip.c:270-324 | every emitted packet carries the right bytes of the datagram, starts at a multiple of 8, and all but the last are multiples of 8 long with the more flag set |
| IpFragments.PiecesCover | kernel/net/ip.c:270-324 | every byte of the payload is in some emitted packet |
| IpFragments.PiecesAreDisjoint | kernel/net/ip.c:270-324 | and in only one |
| IpFragments.FragmentsFit | kernel/net/ip.c:256-328 | every emitted packet fits the MTU with its header, and all but the last are as full as a multiple of 8 can be |
| IpReassembly.PunchMeaning | kernel/net/ip.c:182-208 | punching removes exactly the bytes of the fragment from the union of the holes and, for a last fragment, everything behind it |
| IpReassembly.PunchShrinks | kernel/net/ip.c:182-208 | punching never opens a hole and leaves none inside the fragment, whatever the fragment |
| IpReassembly.PunchOrdered | kernel/net/ip.c:182-208 | the hole list stays ascending and disjoint, every hole 8-aligned |
| IpReassembly.UpdatedDescribes | kernel/net/ip.c:173-211 | after one more fragment, repeated or overlapping or not, the holes are exactly the bytes not yet received and the stored bytes are the sender's |
| IpReassembly.EmptyIffWhole | kernel/net/ip.c:182-227 | the hole list is empty if and only if the datagram is complete; then length and bytes are the sender's |
| IpReassembly.HandleFragment | kernel/net/ip.c:128-228 | one fragment either completes the datagram and delivers it, or leaves a descriptor that describes one more fragment |
| IpReassembly.StepTracks | kernel/net/ip.c:128-228 | the store keeps one descriptor per datagram, describing exactly what arrived since the last delivery; delivery removes it |
| IpReassembly.RunTracksPending | kernel/net/ip.c:94-126 | in every run of arrivals and expiries of any mix of datagrams the stored descriptor describes exactly the pending fragments |
| IpReassembly.DeliversExactlyWhenWhole | kernel/net/ip.c:128-228 | the k-th arrival delivers the datagram, byte for byte, if and only if it makes the pending fragments whole |
| IpReassembly.WholeIffAll | kernel/net/ip.c:256-328 | fragments of the sender's own list are whole exactly when all of them are there |
| IpReassembly.RoundTrip | kernel/net/ip.c:128-328 | sending and reassembling in any order, with repetitions before completion, delivers the payload once, with the last missing fragment and not before, if and only if payload and header fit 65535 bytes |
| IpReassembly.OversizeStaysOpen | kernel/net/ip.c:154-159 | a datagram above that size keeps an open end for ever |
| IpReassembly.OversizeNeverDelivered | kernel/net/ip.c:154-159 | so it is never delivered, in any run |
| IpReassemblyBuffer.SetNextParts | kernel/net/ip.c:55-65 | re-aiming a link in the buffer keeps the rest of the list and every byte outside the holes |
| IpReassemblyBuffer.InsertParts | kernel/net/ip.c:55-65 | writing a hole record into the buffer inserts it into the list and changes no byte outside the holes |
| IpReassemblyBuffer.PunchedClear | kernel/net/ip.c:191-211 | after punching no hole record lies in the bytes about to be copied |
| IpReassemblyBuffer.GrowthFits | kernel/net/ip.c:163-166 | after growing, a hole record fits behind the fragment if and only if it already did or the packet does not end four bytes before a page boundary |
| IpReassemblyBuffer.GrowthFallsShort | kernel/net/ip.c:163-166 | it does not fit for the first fragment of any datagram that this sender cuts at an MTU of 4092 to 4099 |
| IpReassemblyBuffer.Descriptor.constructor | kernel/net/ip.c:116-126 | a new descriptor holds one hole over everything, recorded in its buffer |
| IpReassemblyBuffer.Descriptor.PunchHole | kernel/net/ip.c:184-208 | one turn of the loop: the hole is unlinked and what is left of it inserted; no received byte changes |
| IpReassemblyBuffer.Descriptor.PunchHoles | kernel/net/ip.c:182-208 | the loop over the list in the buffer leaves exactly the punched list and changes no byte outside the old holes |
| IpReassemblyBuffer.Descriptor.Grow | kernel/net/ip.c:160-168 | a larger buffer holds the same list and bytes |
| IpReassemblyBuffer.Descriptor.FillIn | kernel/net/ip.c:210-211 | the fragment's bytes are copied and nothing else changes |
| IpReassemblyBuffer.Descriptor.Absorb | kernel/net/ip.c:182-211 | punching and copying keep every live record intact and every byte received before |
| IpReassemblyBuffer.Descriptor.Receive | kernel/net/ip.c:160-211 | all of a fragment's effect on the descriptor is the one specified on values |
| IpReassemblyBuffer.Descriptor.HandleFragment | kernel/net/ip.c:128-228 | the in-place handler refuses, keeps or delivers exactly as the handler on values does |
| TcpInvariants.AcknowledgeExact | kernel/net/tcp.c:333-377 | an accepted acknowledgement is consumed to the last number; the accounting of buffered bytes, SYN and FIN survives if and only if the buffer is not cleared by advancing a full ring by nothing |
| TcpInvariants.SynAckKeepsData | kernel/net/tcp.c:340-348 | data waiting behind a SYN survives its acknowledgement if and only if the send buffer is not full |
| TcpInvariants.AdvanceAckConsistent | kernel/net/tcp.c:333-377 | moving the acknowledged edge keeps the accounting, and clears the pending FIN exactly when the FIN is covered |
| TcpInvariants.ProcessConsistent | kernel/net/tcp.c:379-485 | processing an in-order segment keeps the accounting and the teardown states and fails no assertion |
| TcpInvariants.HandshakeConsistent | kernel/net/tcp.c:622-631 | so does completing the handshake |
| TcpInvariants.OnAckedConsistent | kernel/net/tcp.c:646-683 | so do the state changes after an acknowledgement: FIN-WAIT-1 and CLOSING only while our FIN is unacknowledged, FIN-WAIT-2 and TIME-WAIT only when nothing is left to send |
| TcpInvariants.RecvDataConsistent | kernel/net/tcp.c:572-689 | so does any segment in a synchronised state |
| TcpInvariants.ForwardAckConsistent | kernel/net/tcp.c:639-683 | so does a forward acknowledgement with the rest of its segment |
| TcpInvariants.NextExact | kernel/net/tcp_socket.c:158-578 | whatever the peer sends and the application does, an event keeps the control block consistent and fails no assertion if and only if it is not one of two named hazards |
| TcpInvariants.LastAckExact | kernel/net/tcp.c:671-675 | in LAST-ACK the assertion holds if and only if the acknowledgement covers the FIN |
| TcpInvariants.ConnectedConsistent | kernel/net/tcp_socket.c:345-388 | an actively opened control block is consistent |
| TcpInvariants.AcceptedConsistent | kernel/net/tcp_socket.c:248-283 | so is a passively opened one, whatever flags and data the SYN carries |
| TcpInvariants.RunConsistent | kernel/net/tcp.c:333-377 | in every run against any peer the accounting and the teardown states hold and no assertion fails, outside the named situations |
| TcpInvariants.HazardIsReachable | kernel/net/tcp.c:340-356 | a run into the first hazard: the send buffer ends up empty with its bytes unacknowledged |
| TcpWindow.ReceivedWindow | kernel/net/tcp.c:403-424 | a segment inside the window is taken whole; the window stays within the free space and its right edge does not move left |
| TcpWindow.CountedFinWindow | kernel/net/tcp.c:403-424 | a FIN that has been counted and is processed again fills all the free space; the window survives if and only if it is exactly the free space or is reopened at once |
| TcpWindow.ProcessWindow | kernel/net/tcp.c:379-424 | the text of a segment inside the window keeps the window if and only if it is not such a FIN |
| TcpWindow.NextWindow | kernel/net/tcp_socket.c:193-204 | every event keeps the window within the free space and takes back no offer, unless it is such a FIN |
| TcpWindow.NextWindowExact | kernel/net/tcp.c:572-689 | and of a consistent block that is exact: the window is kept if and only if no counted FIN passes every check in front of it |
| TcpWindow.SynSentWindow | kernel/net/tcp.c:536-570 | in SYN-SENT the window stays within the free space, and the FIN is still to come if and only if it did not come on the segment that completes the open |
| TcpWindow.NextAhead | kernel/net/tcp.c:451-484 | once the FIN is counted the block no longer takes text, unless the FIN came on the segment that completed the open |
| TcpWindow.RunWindow | kernel/net/tcp_socket.c:452-518 | in every run from SYN-SENT or later against a peer that keeps to the offered windows, has one FIN and does not put it on the segment that completes the open, the window never exceeds the free space, no offer made after the SYN is taken back, and no FIN is processed twice |
| TcpWindow.FinHandshakeSpoils | kernel/net/tcp.c:622-631 | without the last condition it fails: a run from a passive open that ends with a window beyond the free space |
| TcpWindow.FinOnSynSpoils | kernel/net/tcp.c:558-564 | so does a run from an active open whose SYN is answered with a FIN |
| TcpStream.OutgoingCarries | kernel/net/tcp.c:30-88 | a segment built for a range of numbers carries exactly the bytes of the stream at these numbers |
| TcpStream.SendingCarries | kernel/net/tcp_socket.c:206-246 | everything the sending loop emits is the stream's own bytes at the right numbers |
| TcpStream.ArriveMoves | kernel/net/tcp.c:572-689 | an arriving segment moves the acknowledged edge and the received prefix only forward, and only over bytes it carries |
| TcpStream.WriteMoves | kernel/net/tcp_socket.c:520-578 | a write appends to the stream what it reports as taken |
| TcpStream.ReadMoves | kernel/net/tcp_socket.c:452-518 | a read hands over the front of the receive buffer |
| TcpStream.RetransmitMoves | kernel/net/tcp_socket.c:158-178 | a retransmission carries unacknowledged bytes of the stream |
| TcpStream.StepHereInv | kernel/net/tcp.c:333-424 | each event at either endpoint keeps both streams |
| TcpStream.PlayInv | kernel/net/tcp.c:30-88 | in every run of two endpoints over a network that loses, repeats and reorders, the invariant of both streams holds |
| TcpStream.StreamSafety | kernel/net/tcp.c:572-689 | in every such run what a receiver accepted is exactly a prefix of what the sender wrote, and acknowledged number <= received number <= sent number |
| TcpOffers.SendingExact | kernel/net/tcp_socket.c:206-246 | the sending loop sends exactly as many numbers as the closed form says (full segments up to the limit, then the rest if idle and it all fits or is worth half the largest window), and its segments stay within any edge if and only if that many do |
| TcpOffers.AckSendsWithin | kernel/net/tcp.c:363-365 | what a forward acknowledgement sends stays within the window it brings if and only if the closed form under the old window is zero or fits the new one |
| TcpOffers.AckAmountFits | kernel/net/tcp.c:363-365 | it does whenever the window has not shrunk |
| TcpOffers.AckEdge | kernel/net/tcp.c:646-650 | the edge the sender goes by after a forward acknowledgement is within the offer if and only if the segment is current or the window has not shrunk; one that is not current moves the acknowledged number and keeps the old window |
| TcpOffers.WriteSendsWithin | kernel/net/tcp_socket.c:520-578 | a later write stays within any edge if and only if the closed form fits it |
| TcpOffers.AckOvershoots | kernel/net/tcp.c:646-650 | a run of two endpoints from the start that puts a segment on the way beyond the window the receiver has |
| TcpProgress.RetransmitExact | kernel/net/tcp_socket.c:158-165 | the retransmission timer sends one segment from the first unacknowledged number on, as long as what is unacknowledged or as a full segment, if and only if SYN and FIN are not both pending with only the SYN sent |
| TcpProgress.RetransmitBytes | kernel/net/tcp_socket.c:158-165 | once the SYN is acknowledged its data is the front of the send buffer, with the FIN if and only if that was sent and the segment reaches it |
| TcpProgress.RetransmitOverruns | kernel/net/tcp.c:44-47 | the exception is reached: a passive open closed before its SYN is acknowledged sends 65535 bytes that nobody wrote |
| TcpProgress.TakesNext | kernel/net/tcp.c:379-424 | a receiver takes all of the next bytes if they fit its window |
| TcpProgress.ResendAdvances | kernel/net/tcp_socket.c:158-165 | of two endpoints, whatever was lost: sending again moves the receiver on by exactly the bytes sent again, if it waits for them and they fit its window |
| TcpProgress.AckHeard | kernel/net/tcp.c:240-270 | the acknowledgement the timer sends is taken by a peer that has everything sent before it: exactly the acknowledged bytes leave its send buffer |
| TcpProgress.AckReturns | kernel/net/tcp.c:240-270 | so the acknowledgement moves the sender on, in any state of two endpoints |
| TcpProgress.PushExact | kernel/net/tcp.c:52-53 | PSH marks exactly the segments that carry the last byte queued |
| TcpTeardown.ProcessTells | kernel/net/tcp.c:451-484 | the text of a segment changes the state exactly when it completes the peer's FIN |
| TcpTeardown.OnAckedTells | kernel/net/tcp.c:652-682 | an acknowledgement changes it exactly when it covers our FIN |
| TcpTeardown.CloseTells | kernel/net/tcp_socket.c:302-339 | close changes it once, by whether the peer's FIN was there first |
| TcpTeardown.RunTells | kernel/net/tcp.c:572-689 | in every run past the handshake, outside the two hazards, the state is the one that goes with the history: peer's FIN counted, close called, our FIN acknowledged, which FIN came first |
| TcpTeardown.RunStates | kernel/net/tcp.c:460-483 | spelled out: each of the seven states if and only if its combination of facts holds |
| TcpTeardown.HandshakeTells | kernel/net/tcp.c:628-630 | completing the handshake begins that history if and only if its segment brings no counted FIN |
| TcpTeardown.EarlyCloseTells | kernel/net/tcp_socket.c:309-318 | so does closing before it completes, if nothing but the SYN was sent |
| TcpTeardown.EndsExactly | kernel/net/tcp.c:572-689 | past the handshake the block is freed by an acceptable RST or SYN, by the acknowledgement of the last FIN, by new text that comes when our FIN is acknowledged, or by closing with unread data, and by nothing else |
| TcpTeardown.EndTold | kernel/net/tcp.c:411-417 | and unless the peer reset it, or has just acknowledged the last FIN, the last segment sent is a RST |
| TcpAcks.TextTells | kernel/net/tcp.c:426-439 | in-order text is acknowledged at once with the new recv_next, or the timer that does it is armed |
| TcpAcks.TextAtOnce | kernel/net/tcp.c:423-439 | at once if other text is waiting, if it has PSH or FIN, or if it opens the window |
| TcpAcks.NextKeeps | kernel/net/tcp.c:37-42 | every event keeps this: the peer has been sent recv_next, or the timer is armed |
| TcpAcks.RunKeeps | kernel/net/tcp.c:240-270 | so in every run past SYN-SENT, whatever arrives, no acknowledgement is forgotten |
| TcpAcks.StraysAnswered | kernel/net/tcp.c:575-578 | a segment outside the window, or one that acknowledges what was never sent, changes nothing and is answered with where things stand, unless it is a RST |
| TcpHandshake.HandshakeOpens | kernel/net/tcp_socket.c:248-388 | the three-way handshake: connect sends one segment, accept answers it with one, that opens the client, whose one segment opens the server; both agree where their streams start, have each other's window and segment size, and have acknowledged each other's SYN |
| TcpHandshake.OpenedSafe | kernel/net/tcp.c:536-689 | so the streams are safe from the connect and accept calls on, whatever the network does after the handshake |
| TcpHandshake.SynSentLeads | kernel/net/tcp.c:536-570 | SYN-SENT is left for ESTABLISHED, SYN-RECEIVED or CLOSE-WAIT, or the block freed, each if and only if a named segment or call comes; before that nothing is received |
| TcpHandshake.SynReceivedLeads | kernel/net/tcp.c:572-631 | so is SYN-RECEIVED, for LISTEN, ESTABLISHED, CLOSE-WAIT or FIN-WAIT-1; an acknowledgement that does not cover the SYN establishes the connection too, with the SYN still pending |
| TcpHandshake.AcceptableExact | kernel/net/tcp.c:272-290 | the acceptance test agrees with section 3.3 of RFC 793 if and only if the segment does not start before the window and end right at recv_next or right at the window's end |
| TcpHandshake.RepeatedSyn | kernel/net/tcp.c:610-616 | so the peer's SYN, repeated, frees the block if and only if nothing has been received since and the window is open |
| TcpHandshake.RepeatedFin | kernel/net/tcp.c:575-578 | and its FIN, repeated, is left without an answer if and only if the window is open and nothing lies behind the FIN |
| TcpHandshake.LostAckResets | kernel/net/tcp.c:536-616 | a handshake whose last acknowledgement is lost: the answer comes again and the client resets the connection |
| TcpHandshake.ResetBelieved | kernel/net/tcp.c:164-202 | before that, a reset is believed by the block whose segment it answers |
| TcpHandshake.ResetHeard | kernel/net/tcp_socket.c:294-300 | past it, a reset, also the one close sends for unread data, is believed by a peer that has received everything sent before it |
| TcpSocket.Socket.SendAll | kernel/net/tcp_socket.c:206-246 | the sending loop emits exactly the segments of the recursive specification and stops at the first refusal |
| TcpSocket.Socket.Receive | kernel/net/tcp.c:572-689 | a segment past LISTEN and SYN-SENT: a block in order stays in order and no assertion fails, short of the two hazards; what is acknowledged or sent stays so |
| TcpSocket.Socket.Shutdown | kernel/net/tcp_socket.c:285-343 | close keeps the block in order; it is freed at once exactly when unread data would be lost or nothing was connected; otherwise our FIN is queued or already acknowledged |
| TcpSocket.Socket.SendTo | kernel/net/tcp_socket.c:520-578 | exactly as much of the data as there is room for is queued behind what is there, and nothing after a close; the block stays in order |
| TcpSocket.Socket.RecvFrom | kernel/net/tcp_socket.c:452-518 | exactly as many bytes as asked for and there leave the front of the buffer and none are lost; the window is opened and announced exactly when that gains half the buffer or a full segment, stays within the free space and takes back no offer; the block stays in order |
| TcpSocket.Socket.Handle | kernel/net/tcp.c:572-716 | any event on the object: in order and no assertion failed if and only if it is none of the two hazards, never backwards, and the window kept if and only if no counted FIN spoils it |
| TcpSocket.Socket.HandleAll | kernel/net/tcp.c:333-716 | any run of events on the object ends where the run on values ends, with the accounting, teardown and window theorems of whole runs, and in the state that goes with its history |
| PhysicalPages.FillConserves | kernel/mem/phys_page.c:9-20 | a new page in an empty slot: every count is still the number of slots holding the page, frames and pages still match one to one |
| PhysicalPages.ShareConserves | kernel/mem/phys_page.c:22-27 | so with one more slot on the same page |
| PhysicalPages.ReleaseConserves | kernel/mem/phys_page.c:29-34 | so with one slot less: the frame is released exactly when its last slot goes |
| PhysicalPages.SoleHolder | kernel/mem/phys_page.c:22-34 | a page counted once is held by one slot only |
| PhysicalPages.CloneConserves | kernel/mem/anon_vm_object.c:149-173 | cloning keeps the counts, copies what can be read and moves no page |
| PhysicalPages.KillSlotsConserves | kernel/mem/anon_vm_object.c:41-52 | giving up an object's pages keeps the counts and every other object's pages |
| PhysicalPages.DropObjectConserves | kernel/mem/vm_object.c:15-33 | dropping a reference gives up the pages exactly at the last one |
| PhysicalPages.ExtendConserves | kernel/mem/anon_vm_object.c:121-138 | an object grows by zero pages only |
| PhysicalPages.HandleFaultConserves | kernel/mem/anon_vm_object.c:54-82 | a fault changes nothing that can be read and ends with a page behind the slot, new and zeroed if there was none |
| PhysicalPages.HandleCowFaultConserves | kernel/mem/anon_vm_object.c:84-119 | a copy-on-write fault changes nothing that can be read and ends with a page nobody else holds |
| CopyOnWrite.FaultRefines | kernel/mem/vm_object.c:62-88 | a fault keeps the kernel's invariant and changes nothing any process can read |
| CopyOnWrite.CowFaultRefines | kernel/mem/vm_object.c:44-60 | so does a copy-on-write fault |
| ForkRefinement.PokeRefines | kernel/mem/vm_object.c:44-88 | a write through a writable mapping changes that page for those who share the object and for nobody else |
| ForkRefinement.MapAnonRefines | kernel/mem/anon_vm_object.c:175-183 | a new mapping reads as zeroes and disturbs nothing |
| ForkRefinement.GrowRefines | kernel/mem/vm_allocator.c:109-142 | heap growth appends zero pages to the object and disturbs nothing |
| ForkRefinement.ForkRegionRefines | kernel/mem/vm_allocator.c:631-643 | fork of one region behaves like a copy if the region is writable and not shared, and like sharing otherwise |
| ForkRefinement.MapPageRefines | kernel/mem/anon_vm_object.c:18-39 | mapping a page that is there changes nothing any process can read |
| ProcessIsolation.ForkRefines | kernel/mem/vm_allocator.c:623-650 | fork behaves like the fork that copies every private region |
| ProcessIsolation.ForkGives | kernel/mem/vm_allocator.c:623-650 | the child gets the parent's regions with the parent's contents, those that are writable and not shared in stores of their own, and nothing else changes |
| ProcessIsolation.ExitRefines | kernel/proc/process.c:35-51 | exit keeps what other processes can reach and frees the rest |
| ProcessIsolation.OwnRefines | kernel/arch/x86/irqs/handlers.c:118-149 | after at most one copy-on-write fault a page of a writable region is mapped writable |
| ProcessIsolation.MappedReads | kernel/mem/vm_object.c:62-88 | the frame a mapped page leads to holds what the simple kernel says the process reads |
| ProcessIsolation.StepRefines | kernel/mem/vm_object.c:44-88 | every operation keeps the invariant and looks like the same operation of a kernel that copies at fork |
| ProcessIsolation.RunRefines | kernel/mem/vm_allocator.c:623-650 | for every sequence of faults, writes, mappings, growth, forks and exits the copy-on-write kernel looks like the one that copies |
| ProcessIsolation.RunReads | kernel/mem/anon_vm_object.c:54-119 | after any run from boot a process finds in the frame it is given what the copying kernel says it reads |
| ProcessIsolation.RunIsolated | kernel/mem/vm_allocator.c:623-650 | however other processes run, fork, write and exit, a page of a region that is writable and not shared reads the same |
| ProcessIsolation.GrownReadsZero | kernel/mem/vm_allocator.c:109-142 | in every run from boot the pages by which a private region grows read as zero and its other pages as before |
| ProcessIsolation.NothingLeaks | kernel/mem/phys_page.c:29-34 | when every process has gone no frame, page record or object is left |
| ProcessMemory.ReadsEager | kernel/mem/anon_vm_object.c:54-119 | the byte a process finds through its page tables and a fault is the one the copying kernel says |
| ProcessMemory.WriteSeen | kernel/mem/vm_object.c:44-88 | a write is read back, by whichever process, in that byte of the same page of the same object and nowhere else |
| ProcessMemory.MapGives | kernel/mem/vm_allocator.c:346-372 | a new mapping is the last region of its process, with the size, protection and sharing asked for |
| ProcessMemory.MapReadsZero | kernel/mem/anon_vm_object.c:54-119 | a new mapping reads as zeroes |
| ProcessMemory.ForkReads | kernel/mem/vm_allocator.c:623-650 | at a fork the child reads in every region what the parent reads |
| ProcessMemory.RunKeepsPrivate | kernel/mem/vm_allocator.c:631-645 | however other processes run, a byte of a region that is writable and not shared stays the same |
| ProcessMemory.ForkSeparates | kernel/mem/vm_allocator.c:638-642 | after a fork the two have no page of such a region in common |
| ProcessMemory.ForkShares | kernel/mem/vm_allocator.c:636-637 | a region that is shared, or cannot be written, is the same for both |
| ProcessMemory.RunShares | kernel/mem/vm_allocator.c:636-637 | in every run after a fork in which neither exits, both go on reading the same in a shared region |
| ProcessMemory.SharedWriteSeen | kernel/mem/vm_allocator.c:636-637 | and what either writes there, the other reads |
| ProcessMemory.StepReads | kernel/mem/vm_object.c:44-88 | one operation shows in what a process reads if and only if it writes that byte of that page |
| ProcessMemory.MemoryIsHistory | kernel/mem/vm_object.c:44-88 | in every run a process reads the byte last written to that page by a process that has it, or else what was there at the start |
| Machine.Memory.AnonClone | kernel/mem/anon_vm_object.c:149-173 | the loop over the slots builds the clone specified on values |
| Machine.Memory.AnonKill | kernel/mem/anon_vm_object.c:41-52 | the loop gives up every page, as specified |
| Machine.Memory.DropReference | kernel/mem/vm_object.c:15-33 | one user less: page counts stay exact and what every other object holds stays as it is |
| Machine.Memory.AnonFault | kernel/mem/anon_vm_object.c:54-82 | a fault keeps page counts exact and changes nothing any object reads |
| Machine.Memory.AnonCowFault | kernel/mem/anon_vm_object.c:84-119 | copying first and dropping the old page last keeps page counts exact and changes nothing any object reads |
| Machine.Memory.AnonExtend | kernel/mem/anon_vm_object.c:121-138 | page counts stay exact and the object reads as before with zero pages behind |
| Machine.MapPagesRefine | kernel/mem/anon_vm_object.c:18-39 | mapping a region page by page keeps the invariant and changes nothing that can be read |
| Machine.Processes.FaultInRegion | kernel/mem/vm_object.c:62-88 | the fault handler keeps the invariant and no process can tell that it ran |
| Machine.Processes.CowFaultInRegion | kernel/mem/vm_object.c:44-60 | so does the copy-on-write fault handler on a writable region |
| Machine.Processes.WriteToRegion | kernel/arch/x86/irqs/handlers.c:118-149 | a write with the faults it takes does what a write of the copying kernel does |
| Machine.Processes.MarkRegion | kernel/arch/x86_64/mem/page.c:241-252 | every mapped page of the region, and no other, loses write permission |
| Machine.Processes.AnonMap | kernel/mem/anon_vm_object.c:18-39 | the loop maps exactly the pages the object has, keeps the invariant and changes nothing that can be read |
| Machine.Processes.CloneRegion | kernel/mem/vm_allocator.c:631-646 | one region of a fork keeps the invariant and looks like the copying fork of that region |
| Machine.Processes.CloneProcess | kernel/mem/vm_allocator.c:623-650 | the fork loop keeps the invariant and looks like the copying fork |
| Machine.Processes.FreeProcess | kernel/proc/process.c:35-51 | the exit loop keeps the invariant and looks like the simple exit |
| AddressSpace.InsertedSorted | kernel/mem/vm_region.c:13-22 | inserting into a gap keeps the list ascending and disjoint |
| AddressSpace.Inserted | kernel/mem/vm_region.c:13-22 | the inserted region's pages are its own, all others are unchanged |
| AddressSpace.UnmapTail | kernel/mem/vm_allocator.c:240-256 | trimming the end of a region: the pages below its old end are done |
| AddressSpace.UnmapHead | kernel/mem/vm_allocator.c:258-272 | trimming the start of a region finishes the range |
| AddressSpace.UnmapMiddle | kernel/mem/vm_allocator.c:217-238 | splitting a region finishes the range |
| AddressSpace.UnmapWhole | kernel/mem/vm_allocator.c:274-303 | removing a region inside the range changes no page outside |
| AddressSpace.UnmapKeepsBacking | kernel/mem/vm_allocator.c:231 | all pages outside the range keep the object page behind them if and only if no region strictly contains the range |
| AddressSpace.UnmapMisplaces | kernel/mem/vm_allocator.c:225-237 | the smallest instance in which one does not |
| Protection.ProtectMeans | kernel/mem/vm_allocator.c:375-508 | over regions that may be cut no page is mapped or unmapped, the mapped pages of the range get the new flags, plus VM_STACK where it was set, and all others keep their flags; every page keeps the object page behind it if and only if no region strictly contains the range |
| Protection.FlagsMeant | kernel/mem/vm_allocator.c:375-508 | flag by flag, also over regions that may not be cut: a page of the range gets the new flags and keeps of the old ones only VM_STACK, unless its region ends behind the range and is none of the three kinds |
| Protection.ProtectMisplaces | kernel/mem/vm_allocator.c:402-427 | the smallest instance in which one does not |
| Protection.RoundTail | kernel/mem/vm_allocator.c:432-459 | cutting a region at the start of the range |
| Protection.RoundHead | kernel/mem/vm_allocator.c:461-490 | cutting a region at the end of the range |
| Protection.RoundMiddle | kernel/mem/vm_allocator.c:393-430 | cutting a region around the range, with the offsets the code writes |
| Protection.RoundStop | kernel/mem/vm_allocator.c:393-400 | a region behind the end of the range that may not be cut keeps its flags and ends the loop |
| Protection.RoundWhole | kernel/mem/vm_allocator.c:492-504 | a region inside the range |
| UserMemory.Space.Find | kernel/mem/vm_allocator.c:601-621 | the first region that the three-way test accepts, or that there is none |
| UserMemory.Space.Add | kernel/mem/vm_region.c:13-22 | the region is linked in before the first that starts at its end or later |
| UserMemory.Space.LowerEnd | kernel/mem/vm_allocator.c:248-251 | the end moves down page by page, and the entries between go |
| UserMemory.Space.RaiseStart | kernel/mem/vm_allocator.c:264-268 | start and offset move up page by page, and the entries between go |
| UserMemory.Space.CutOut | kernel/mem/vm_allocator.c:217-238 | the split as the code writes it, with one more reference to the object |
| UserMemory.Space.UnmapFirst | kernel/mem/vm_allocator.c:216-303 | one round of the loop makes progress and keeps what the loop needs |
| UserMemory.Space.Unmap | kernel/mem/vm_allocator.c:210-305 | exactly the pages of the range go, with their page table entries; all other pages keep flags, type and object; the list stays sorted and disjoint; every region still holds one reference to its object; the loop ends |
| UserMemory.Space.UnmapRange | kernel/mem/vm_allocator.c:307-325 | an unaligned address is refused, zero length does nothing, otherwise every page the bytes touch goes |
| UserMemory.Space.ProtectFirst | kernel/mem/vm_allocator.c:392-504 | one round of the loop over the regions in the range |
| UserMemory.Space.Protect | kernel/mem/vm_allocator.c:375-508 | for every page of every region exactly what becomes of it, flag by flag; coverage unchanged, list sorted and disjoint, references balanced, the loop ends |
| UserMemory.Space.ProtectRange | kernel/mem/vm_allocator.c:375-392 | an unaligned address is refused, zero length does nothing; otherwise every byte can be written, and reached at all, exactly as asked for, and none is protected against execution |
| UserMemory.Space.FindRoom | kernel/mem/vm_allocator.c:346-352 | the search starts 256 megabytes above the heap, ends there exactly if nothing is in the way, and else five pages behind some region, at a range no region is in |
| UserMemory.Space.ChooseAddress | kernel/mem/vm_allocator.c:330-354 | a fixed address is taken, a free wanted address is taken, otherwise a free one is found |
| UserMemory.Space.MapRegion | kernel/mem/vm_allocator.c:327-373 | the new pages are the new region's; without a fixed address nothing that was mapped is touched; with one, the range is replaced |
| PathWalk.Resolve | kernel/fs/vfs.c:315-511 | resolution ends on every directory graph with at most 25 link expansions, and a result lies under the root |
| PathWalk.ResolveFollows | kernel/fs/vfs.c:474-510 | unless links are to be kept the result is not a link |
| PathWalk.ResolveReal | kernel/fs/vfs.c:434-446 | every entry of the result is what its directory has under that name, or the root of what is mounted there |
| PathWalk.PathsCompose | kernel/fs/vfs.c:348-454 | resolving p/q is walking to p and resolving q there |
| PathWalk.CycleFails | kernel/fs/vfs.c:315-319 | a link to itself fails with ELOOP when the limit is reached |
| PathWalk.PathRoundTrip | kernel/fs/vfs.c:2404-2437 | resolving the path of an entry leads back to the entry |
| PathMeaning.StepsNames | kernel/fs/vfs.c:403-446 | a walk that expands no link ends at the entry whose names are the normal form: dots dropped, two dots dropping the name before them if there is one |
| PathMeaning.ResolveNames | kernel/fs/vfs.c:330-470 | the same of a whole path |
| PathMeaning.DotDotLeads | kernel/fs/vfs.c:409-419 | two dots behind the path of a directory lead to the directory above |
| PathMeaning.DotDotAtRoot | kernel/fs/vfs.c:409-412 | and at the root to the root |
| PathMeaning.ResolveMet | kernel/fs/vfs.c:441-446 | every mount on the way is crossed, unless one at the end is to be kept |
| PathMeaning.MountPointKept | kernel/fs/vfs.c:441-446 | one at the end that is to be kept is not crossed |
| PathMeaning.SameNormalForm | kernel/fs/vfs.c:330-470 | two paths with the same normal form, found without expanding a link, name the same inode |
| PathMeaning.StepsFail | kernel/fs/vfs.c:390-438 | a walk that fails without expanding a link fails where the components before lead, with the first error that applies |
| PathMeaning.LinkIsItsTarget | kernel/fs/vfs.c:352-388 | following a link with a relative target is resolving the target behind the path of its directory, one expansion deeper |
| PathMeaning.LinkToItself | kernel/fs/vfs.c:370-375 | a link that names itself fails with ELOOP without being expanded |
| PathMeaning.ResolveMount | kernel/fs/vfs.c:332-446 | without two dots on the way the mount in force at the end is the one the entry belongs to |
| PathMeaning.TrailingSlash | kernel/fs/vfs.c:464-470 | where links are kept a slash at the end changes nothing, but a regular file is not found, nor the root by two characters |
| TnodeTree.BumpCounted | kernel/fs/tnode.c:75-87 | counts are still children plus outside holders, with one holder more |
| TnodeTree.CreateCounted | kernel/fs/tnode.c:27-41 | so with a new entry that takes over the reference to its parent |
| TnodeTree.DropCounted | kernel/fs/tnode.c:43-73 | so with one holder less, through every entry that is released on the way up |
| TnodeTree.SameHolders | kernel/fs/tnode.c:43-73 | two trees that agree on what they share and have the same outside holders are the same tree |
| Vfs.Resolver.constructor | kernel/fs/tnode.c:12-25 | a tree of one root entry, held once |
| Vfs.Resolver.Bump | kernel/fs/tnode.c:75-87 | one reference more |
| Vfs.Resolver.Release | kernel/fs/tnode.c:43-73 | the recursion up the parents leaves every count right for the remaining holders and no remaining entry changed otherwise |
| Vfs.Resolver.Drop | kernel/fs/tnode.c:43-73 | one reference less and counts right for the remaining holders |
| Vfs.Resolver.Create | kernel/fs/tnode.c:27-41 | a new entry below a parent, in place of the reference to the parent |
| Vfs.Resolver.Hop | kernel/fs/vfs.c:403-446 | one component: dot, dot-dot, lookup and mount crossing, as the pure resolver does it |
| Vfs.Resolver.Descend | kernel/fs/vfs.c:389-453 | permission and directory checks and one component, as the pure resolver does them |
| Vfs.Resolver.FollowLink | kernel/fs/vfs.c:349-388 | a link is followed from its directory with the reference counts balanced |
| Vfs.Resolver.Iname | kernel/fs/vfs.c:315-511 | the scan over the path gives exactly the pure resolver's result; on success one reference more is held, to the result; on failure none |
| Vfs.Resolver.InameWithBase | kernel/fs/vfs.c:522-538 | a failed resolution leaves every entry and every count as it was |
| Vfs.Resolver.Probe | kernel/fs/vfs.c:522-538 | resolving and dropping the result leaves every entry and every count as it was |
| Vfs.Resolver.GetPath | kernel/fs/vfs.c:2404-2437 | the names joined are the path of the entry's chain; every access to the name buffer is in bounds if and only if there are at most 15 names |
| Ext2Blocks.PosIs | kernel/fs/ext2.c:495-559 | the position of a block number by division is the inverse of numbering the positions |
| Ext2Blocks.FlatIs | kernel/fs/ext2.c:495-566 | the n-th entry of the recursive flattening is the entry at the n-th position |
| Ext2Blocks.FlatDirect | kernel/fs/ext2.c:479-519 | blocks 0 to 11 are the twelve pointers in the inode |
| Ext2Blocks.FlatSingle | kernel/fs/ext2.c:499-561 | block 12 + k is entry k of the block under pointer 12 |
| Ext2Blocks.FlatDouble | kernel/fs/ext2.c:499-561 | the next b * b are reached through two blocks from pointer 13 |
| Ext2Blocks.FlatTriple | kernel/fs/ext2.c:499-561 | and the next b * b * b through three from pointer 14 |
| Ext2Blocks.FlatPast | kernel/fs/ext2.c:506-566 | and behind them there is nothing |
| Ext2Iterator.NextGives | kernel/fs/ext2.c:577-695 | from any place one call gives the entry where the walk goes on, the end at a missing pointer, an error at an unreadable block, and the end at the size |
| Ext2Iterator.RunTraces | kernel/fs/ext2.c:577-695 | every run follows its trace of positions |
| Ext2Iterator.ScanIsFlat | kernel/fs/ext2.c:477-484 | the n-th call on a fresh iterator gives entry n of the flattened tree, and the end from ceil(size / block size) on |
| Ext2Iterator.ScanReaches | kernel/fs/ext2.c:577-695 | a fresh iterator gives n blocks if and only if the first n entries are there and start within the size |
| Ext2Seek.SeekReaches | kernel/fs/ext2.c:495-566 | a seek ends at the n-th position, or says that it is missing or unreadable |
| Ext2Seek.SeekThenNext | kernel/fs/ext2.c:495-566 | seek and then next give entry n |
| Ext2Seek.SeekShallow | kernel/fs/ext2.c:515-519 | after a seek among the direct blocks or into the first tree the rest of the file follows |
| Ext2Seek.SeekRun | kernel/fs/ext2.c:554-559 | every call after a seek into the second or third tree: the rest of the leaf follows, then that leaf again, so that the walk stays one leaf behind; in the third tree, from the end of the middle block on, that block again as well |
| Ext2Seek.SeekRunExact | kernel/fs/ext2.c:554-559 | so the walk is the rest of the file exactly to the end of the leaf |
| Ext2Walker.Walker.IsFinished | kernel/fs/ext2.c:581-587 | whether all levels up to this one are used up |
| Ext2Walker.Walker.Pass | kernel/fs/ext2.c:580-655 | one pass over the levels, as specified |
| Ext2Walker.Walker.NextBlock | kernel/fs/ext2.c:577-695 | the whole call with its restarts does what is specified on values |
| Ext2Walker.Walker.Collect | kernel/fs/ext2.c:477-695 | walking a whole file hands out the entries of the flattened tree in order and ends exactly at the size, at the first missing entry, or with an error at the first unreadable one |
| Ext2Walker.Walker.LoadLevels | kernel/fs/ext2.c:521-560 | the loop down the levels of a seek, as specified |
| Ext2Walker.Walker.SeekTo | kernel/fs/ext2.c:495-566 | the seek does what is specified on values |
| BlockCache.WriteThrough | kernel/hal/block.c:180-184 | writing one page through keeps every cached page equal to its disk page |
| BlockCache.StaleExact | kernel/hal/block.c:178-188 | after a failed page write the cache is in order if and only if the data was on the disk already |
| BlockCache.Device.constructor | kernel/hal/block.c:254-267 | a device with an empty cache |
| BlockCache.Device.ShrinkCache | kernel/hal/block.c:44-49 | the least recently used page leaves both list and map |
| BlockCache.Device.TrimCache | kernel/hal/block.c:300-317 | exactly the hundred least recently used pages go, or all there are; the rest stay coherent |
| BlockCache.Device.FindPage | kernel/hal/block.c:31-42 | a hit becomes the most recently used page |
| BlockCache.Device.PutCache | kernel/hal/block.c:51-60 | the page is in list and map once, possibly for another |
| BlockCache.Device.FindOrRead | kernel/hal/block.c:62-73 | a hit cannot fail; otherwise the page is cached and equals its disk page if and only if memory was had and the disk was read |
| BlockCache.Device.FindOrEmpty | kernel/hal/block.c:75-87 | a hit cannot fail; otherwise a page with unknown contents is cached if and only if memory was had; all others are coherent |
| BlockCache.Device.ReadBlocks | kernel/hal/block.c:112-128 | what is read is what the disk holds there; all is read if and only if no allocation and no disk read failed; short, it ends in front of a page that is not there; a cached range takes neither |
| BlockCache.Device.WriteBlocks | kernel/hal/block.c:162-190 | exactly the reported part of the data is on the disk, at the right place, and nothing else changed; all is written if and only if nothing failed; after a failed page write exactly that page shows what is not on the disk |
| BlockCache.Device.Read | kernel/hal/block.c:89-136 | EINVAL, ENXIO and EIO each exactly when; in range, the blocks of the disk, all of them if and only if nothing failed |
| BlockCache.Device.Write | kernel/hal/block.c:138-199 | the same error codes; what is reported written is on the disk and nothing else changed, all of it if and only if nothing failed |
| BlockCache.Device.Serve | kernel/hal/block.c:31-317 | any sequence of reads, writes and trims, up to the first failed page write, is answered as a flat disk would answer it, each request completely if and only if nothing failed during it, trying no more than a page of each kind for every block and nothing for what is cached, and leaves the disk a flat disk would be left as |
| SetPropagation.MakeUnion | gen/parser/extended_grammar.cpp:46-60 | the union, and whether it added anything |
| SetPropagation.Round | gen/parser/extended_grammar.cpp:156-174 | one round in any order: afterwards every edge is satisfied or its source was updated in this round |
| SetPropagation.Propagate | gen/parser/extended_grammar.cpp:156-181 | the loop ends, for any edges, seeds and order, with the least family that contains the seeds and is closed under the edges |
| SetPropagation.LeastUnique | gen/parser/extended_grammar.cpp:236-261 | there is one least family, so the iteration order cannot matter |
| SetPropagation.LeastIsDerived | gen/parser/extended_grammar.cpp:156-181 | an element is in a set if and only if it comes there from a seed along the edges |
| SetPropagation.FirstEdges | gen/parser/extended_grammar.cpp:145-154 | the left side of a rule includes exactly the parts before which everything can be empty |
| BuildOrder.NoCycleInOrder | gen/port_manager/context.cpp:56-96 | no port of an ordered list is on a cycle |
| BuildOrder.StackCycle | gen/port_manager/context.cpp:74-76 | a dependency on a port being visited closes a cycle that the requested port reaches |
| BuildOrder.Sorter.Visit | gen/port_manager/context.cpp:66-84 | a visit appends, once each and after what they need, ports reachable from the visited one, itself last; or a cycle is reachable; it ends because the unvisited ports off the current path get fewer |
| BuildOrder.BuildPort | gen/port_manager/context.cpp:56-96 | sorting succeeds if and only if no cycle can be reached; then the list holds exactly the reachable ports, once, dependencies first, the requested port last |

## Left out

- IpReassemblyBuffer.Descriptor.HandleFragment: requires room for the hole record that `GrowthFits` shows may be missing.
- IP headers are records and there is one payload header per packet, as all callers build it; fragments of one datagram agree with each other.
- TCP LISTEN demultiplexing, checksums, options, round-trip times and timer values: they carry no invariant of their own; timers are events.
- TcpStream.StreamSafety: covers established endpoints without pending SYN or FIN, since a FIN rides on any segment that ends at the last number sent.
- TcpInvariants.RunConsistent: excludes acknowledgements that empty a full ring and short ones in LAST-ACK, which `NextExact` characterises exactly.
- TcpWindow.RunWindow: the peer's FIN has one number, and its segments keep to the windows it is offered.
- ProcessIsolation.RunRefines: region protections are fixed during a run; a read-only private region made writable after a fork would share its object.
- ProcessIsolation.ExitRefines: regions are dropped one by one from the last in the model's listing, which is in order of creation and not of address.
- Inode-backed, device and kernel objects, and regions without an object: only anonymous objects have pages to share.
- UserMemory.Space.Unmap: a region that has to be split must have an object, because the code adds a reference to it without looking.
- UserMemory.Space.MapRegion: does not cover stacks, which are searched for downward, nor zero lengths, which link in an empty region.
- UserMemory.Space.Protect: regions must not be empty, because the loop would not get past one, and a region that is cut must have an object, to which the code adds a reference without looking; page table flags are left to the fault handler.
- Address wrap-around at the top of the address space: addresses are unbounded numbers of pages.
- Vfs.Resolver.Iname: the file system does not change during one resolution; a process's root is the tree's only root.
- Vfs.Resolver.GetPath: what the path becomes when the name buffer is overrun; it is stated as if the names were kept.
- ext2 write mode, bitmaps and directory editing: they keep no clean invariant.
- BlockCache.Device.PutCache: an empty cache is not shrunk when memory is short, which the code does not check.
- BlockCache.Device.WriteBlocks: a page write that fails leaves the disk as it was; partitions start at a page boundary.
- BlockCache.Device.Serve: is followed to the first failed page write, behind which the cache is no longer in order unless `StaleExact` says so.
- Ext2Walker.Walker.NextBlock: what a call leaves behind after the end or an error is not modelled, since callers stop there.
- The caches of a disk and of its partitions seen together: the code does not keep them coherent.
- SetPropagation.Propagate: the marking of nullable symbols and the seeds of the follow sets are inputs; `__Empty` is an ordinary element.
- BuildOrder.BuildPort: does not run the build steps of the sorted ports.
