# A verified model of the two-thread TCP endpoint

The library runs a passive TCP endpoint on two threads without locks: an inbound thread polls
packets, runs the connection state machine and answers on a control queue; an outbound thread sends
application bytes and closes connections on a data queue. They share each connection slot through
single-writer atomics. This project models that endpoint, the single-producer/single-consumer
hand-off of the echo server built on it, and the ARP neighbour table, and proves what they promise.

`dafny verify dfyconfig.toml` checks everything.

## The files

| file | holds |
|---|---|
| `SeqArith.dfy` | 32-bit sequence arithmetic against unbounded positions |
| `Connection.dfy` | one slot and what one segment does to it, as functions |
| `Protocol.dfy` | one incarnation as a transition system of inbound, outbound and peer steps |
| `SendSide.dfy`, `ReceiveSide.dfy`, `Lifecycle.dfy` | the three parts of its inductive invariant |
| `ProtocolSafety.dfy` | the theorems over every run of it |
| `Window.dfy` | whose advertised window is in force after acknowledgments in any order |
| `SlotLife.dfy` | generations, and one slot through all its incarnations: `lookup` and `sendable` against re-initialisation |
| `OutThread.dfy` | the outbound thread as a machine of its own, and that `Protocol.dfy`'s outbound steps are exactly its |
| `Sender.dfy` | `send` and `close` as methods that can store and hand over only by steps of that machine |
| `Probing.dfy`, `FlowTable.dfy` | linear probing with backward-shift deletion as a finite map |
| `Book.dfy`, `Polls.dfy`, `Receiver.dfy` | the receiver's lists, what one poll does to them, and the class that does it |
| `Wire.dfy`, `Packet.dfy`, `MssParser.dfy` | segments as bytes: checksums, the parser, the builder, the MSS option |
| `Ring.dfy`, `EchoServer.dfy` | the ring, and the hand-off through it and the overflow queue |
| `EchoModel.dfy`, `EchoClose.dfy`, `EchoBytes.dfy`, `EchoRuns.dfy` | the echo server end to end: its steps, who is closed when, whose bytes go where, and the theorems over every run |
| `Arp.dfy` | ARP packets, the neighbour table, the merge and reply rules |

## How it is modelled

- Threads are interleaved at their atomic loads and stores and at each hand-over to a NIC queue.
  Memory is sequentially consistent.
- A field carries the 32-bit value the code computes. Beside it the transition system keeps the
  unbounded stream position it stands for. Where the two agree is proved, not assumed.
- The peer of `Protocol.dfy` acknowledges only bytes a NIC took, less than 2^31 - 65536 behind
  `snd_una`, and cuts its data from one stream, within 2^31 of `rcv_nxt`. Its segments may be
  lost, duplicated, overlapped and reordered. Resets and SYNs are unconstrained.
- The NIC accepts any prefix of a burst and the buffer pool may refuse any allocation. `refusals`
  counts how often they did, so that a short result is always explained by one.
- The hash functions are arbitrary functions into the table, the initial sequence number an
  arbitrary word. What an atomic load of the other thread's field returns is a parameter of the
  receiver's methods, so their contracts hold for every value.
- Checksum words are summed in network byte order, as section 1 of RFC 1071 defines the sum.

## Where a promise needs a condition

Five promises hold only under a condition. Each condition is proved exact, and for those that need a
long run to fail, the run is built.

- `seq_lt` orders two positions correctly if and only if they are within half the sequence space
  (`SeqArith.SeqLtDecides`).
- `lookup` of a closed id finds nothing, unless the slot has been re-opened a whole number of times
  2^32 - 1 since (`SlotLife.LookupSafe`, `SlotLife.StaleFoundIff`). `SlotLife.StaleFound` is a run in
  which the id of a closed connection is found.
- `close_once` calls `close` for every processed closing item of a run if and only if none of them is
  of a connection a whole number of generation cycles after the one accepted before it on the slot
  (`EchoRuns.ClosedIff`). `EchoRuns.CloseSkipped` is a run in which a `close` is skipped. That it is
  called at most once, and that the echoed bytes are a prefix, needs no condition.
- The ring survives the wrap of its counters if and only if its capacity divides the counters'
  range, which every power of two does (`Rings.IndexUnwrapped`, `Rings.IndexBrokenByWrap`).
- `src/arp.h:65-70` says that `replied` and `learned` mean the sender was learned. `handle_arp` says
  so of a sender it did not learn exactly for requests for the local address that come from 0.0.0.0
  or find the table full (`Arp.ReportedUnlearned`); `Arp.ProbeIsReplied` is such a request. Here code
  and documentation disagree, and the model follows the code.

## Model

| member | source | states |
|---|---|---|
| SeqArith.SeqLtDecides | src/tcp_connection.h:36 | on positions less than a wrap apart the comparison gives the true order if and only if they are within half the space |
| SeqArith.SeqLeqDecides | src/tcp_connection.h:37 | the same for the non-strict comparison |
| SeqArith.WrapInjective | src/tcp_connection.h:35-39 | equal wire values mean equal positions less than a wrap apart |
| SeqArith.PackRoundTrip | src/tcp_connection.h:41-45 | both halves of the packed window word read back |
| SeqArith.WindowSpaceExact | src/tcp_stack.cpp:125-131 | the space computed on wrapped words is max(0, una + wnd - nxt) over unbounded positions |
| ProtocolSafety.SendingSafe | src/tcp_stack.cpp:471-501 | in every run: acknowledged <= transmitted <= published; at most 65535 bytes in flight, 65536 with the FIN; nothing published or transmitted past the right edge of the pair that send() loaded; the window space is exact; no acknowledgment takes the "never sent" branch |
| ProtocolSafety.ReceivingSafe | src/tcp_stack.cpp:520-577 | in every run: the data events spell exactly the peer's stream up to rcv_nxt; events follow the grammar and `closed` needs our published FIN; the published rcv_nxt never runs ahead and agrees when inbound is idle; every acknowledgment on either queue, SYN-ACKs included, is of something received in order; those on the control queue never go back |
| ProtocolSafety.FinSafe | src/tcp_stack.cpp:503-515 | in every run the FIN counts as acknowledged exactly when the segment covers it, and exactly then the closing states move on, even if close() runs inside process_segment; no RST, SYN or ACK-less segment does it |
| ProtocolSafety.RunForward | include/tcp_stack.h:41-52 | in every run snd_una, the bytes taken, rcv_nxt, the published una and rcv_nxt and the events never go back, and snd_nxt is final once the FIN flag is seen |
| ProtocolSafety.StartInv | src/tcp_stack.cpp:403-446 | what open() leaves behind satisfies the protocol invariant |
| ProtocolSafety.StepInv | include/tcp_stack.h:26-52 | every step of inbound, outbound and peer keeps the invariant |
| ProtocolSafety.RunInv | include/tcp_stack.h:26-52 | so does every run |
| SendSide.TakeAckExact | src/tcp_stack.cpp:482-486 | the new snd_una stands for the maximum of the old position and the acknowledged one |
| SendSide.NeverBeyondSndNxt | src/tcp_stack.cpp:478-481 | an acknowledgment of transmitted bytes is never judged beyond the snd_nxt that was loaded |
| SendSide.ProcessedUna | src/tcp_stack.cpp:579-644 | which segments may move snd_una, to what, and that exactly the handshake's own ACK reports the connection |
| SendSide.SendLoopStep | src/tcp_stack.cpp:909-946 | each publish, hand-over and pull-back of the transmit loop keeps the sending invariant |
| SendSide.SendStepOutbound | src/tcp_stack.cpp:890-982 | so does every other step of send() and close() |
| SendSide.SendStepInbound | src/tcp_stack.cpp:471-501 | so does every inbound step, its stores done one at a time |
| SendSide.UnaMoves | src/tcp_stack.cpp:482-486 | snd_una only moves forward, to a transmitted position, and leaves the initial one exactly when the connection is reported |
| WindowRule.TakeExact | src/tcp_stack.cpp:482-498 | the update of snd_una, the window, SND.WL1 and SND.WL2 on wrapped words is the one on positions |
| WindowRule.TakeAcksExact | src/tcp_stack.cpp:482-498 | so over any sequence of acknowledgments |
| WindowRule.WindowIsNewest | src/tcp_stack.cpp:487-498 | the window in force is that of the newest segment among those current when they came, whatever the order: no overtaken segment brings its window back |
| WindowRule.UnaIsHighest | src/tcp_stack.cpp:482-486 | snd_una is the highest acknowledgment |
| ReceiveSide.TrimExact | src/tcp_stack.cpp:540-554 | the gap test, the end and the trim computed on wrapped words are the true ones |
| ReceiveSide.DataReceives | src/tcp_stack.cpp:520-577 | process_data delivers exactly the stream between the old and the new rcv_nxt, with the trim strictly inside the payload |
| ReceiveSide.ProcessedReceives | src/tcp_stack.cpp:579-644 | so does process_segment as a whole, in every state |
| ReceiveSide.OutboundFrame | include/tcp_stack.h:40-52 | no outbound step writes a field the inbound thread owns |
| ReceiveSide.AckStepOutbound | src/tcp_stack.cpp:903-903 | the acknowledgment number carried on data and FIN segments is one received in order |
| ReceiveSide.AckStepInbound | src/tcp_stack.cpp:767-781 | so is that of a pure ACK, and they never go back |
| Lifecycle.GrammarIff | include/tcp_stack.h:98-125 | the event automaton accepts exactly the sequences with `accepted` only first, a terminal event only last, and only a terminal one after `peer_closed` |
| Lifecycle.ProcessedMoves | src/tcp_stack.cpp:579-644 | one segment's events walk the grammar from the old state's phase to the new one's, and a clean close comes only from a closing state |
| Lifecycle.OthersCloseNothing | src/tcp_stack.cpp:624-638 | a RST, a SYN or a segment without ACK leaves the state alone, recycles a handshake or resets, and never closes cleanly |
| Lifecycle.FinAcknowledgedExactly | src/tcp_stack.cpp:475-515 | flag and final snd_nxt are always seen together: the test is true exactly when the segment covers our FIN |
| Generations.NextIsGenOf | src/tcp_stack.cpp:433-437 | the generation bump is the closed form of the n-th incarnation and never 0 |
| Generations.SameGeneration | src/tcp_stack.cpp:433-437 | two incarnations share a generation exactly when whole cycles lie between them |
| SlotLife.RunInv | src/tcp_stack.cpp:429-442 | the slot invariant holds in every run of open, accept, terminate, recycle, lookup and close, one store or load at a time |
| SlotLife.LookupSafe | src/tcp_stack.cpp:856-873 | in every interleaving a held id owns its slot, so no lookup of it fails, and a closed id is never found within a generation cycle |
| SlotLife.StaleFoundIff | src/tcp_stack.cpp:856-873 | in every reachable state a closed id is found on a live slot exactly after whole generation cycles |
| SlotLife.StaleFound | src/tcp_stack.cpp:429-442 | a run in which that happens |
| SlotLife.NeverSendableAgain | src/tcp_stack.cpp:875-879 | once an id cannot be sent on it never can again, and no later call of sendable() says so, its five loads interleaved with anything, within a generation cycle |
| OutThread.StepProjects | src/tcp_stack.cpp:890-982 | every outbound action of the protocol is the step of the outbound machine it stands for |
| OutThread.InboundProjects | include/tcp_stack.h:40-52 | no inbound action moves the outbound thread or a field it owns |
| OutThread.RunLeads | src/tcp_stack.cpp:890-982 | in every interleaving the outbound thread walks a path of its machine, and its fields hold what the path leaves in them |
| OutThread.PathRuns | src/tcp_stack.cpp:890-982 | conversely the next step of any path, its load matching memory, extends the run wherever the other threads are, to the path's state |
| Sender.SegmentsCarryPrefix | src/tcp_stack.cpp:909-929 | the first n segments carry exactly the bytes up to the n-th end, back to back |
| Sender.SegmentsConsecutive | src/tcp_stack.cpp:915-925 | each holds 1 to mss bytes, is numbered by its offset, and has PSH exactly when it ends the data |
| Sender.TcpSender.BuildBurst | src/tcp_stack.cpp:910-926 | a burst is the next segments in order, cut short only by the pool |
| Sender.TcpSender.StoreNxt | src/tcp_stack.cpp:930-937 | snd_nxt is stored only by an enabled step of the outbound machine |
| Sender.TcpSender.SendBurst | src/tcp_stack.cpp:932-932 | segments are handed over only when the bytes they carry are published and not yet taken, or the FIN is counted, flagged and built |
| Sender.TcpSender.Offer | src/tcp_stack.cpp:928-943 | a burst's end is published, then the burst handed over; the machine stands at what was taken |
| Sender.TcpSender.OneBurst | src/tcp_stack.cpp:909-945 | one turn of the loop: what the NIC took, and snd_nxt pulled back to it if that was not all |
| Sender.TcpSender.Send | src/tcp_stack.cpp:890-947 | the payloads taken are exactly bytes[..done], in segments of 1 to mss bytes; snd_nxt advances by exactly that; less than the window allows only after a refusal; everything on the way is a path of the outbound machine |
| Sender.TcpSender.Close | src/tcp_stack.cpp:949-982 | the FIN is counted, flagged and only then offered; one at most, taken unless all 2^20 attempts were refused; the release is the last step in every case |
| FlowTables.KeyInjective | src/tcp_stack.cpp:165-168 | distinct tuples have distinct keys, and none with a peer address has the empty key |
| Probing.Probe | src/tcp_stack.cpp:170-189 | the walk ends, at the key if it is in the map and at an empty slot if not |
| Probing.MoveBack | src/tcp_stack.cpp:201-208 | pulling back an entry that does not `stay` keeps every key reachable |
| Probing.Cleared | src/tcp_stack.cpp:201-209 | once the scan meets an empty slot, emptying the hole does too |
| FlowTables.FlowTable.constructor | src/tcp_stack.cpp:161-163 | an empty table is the empty map |
| FlowTables.FlowTable.Find | src/tcp_stack.cpp:170-179 | returns the map's value or npos |
| FlowTables.FlowTable.Insert | src/tcp_stack.cpp:183-189 | is the map update |
| FlowTables.FlowTable.Erase | src/tcp_stack.cpp:191-210 | removes exactly one key, and terminates |
| FlowTables.FlowTable.ShiftBack | src/tcp_stack.cpp:201-209 | the backward shift restores the table from any hole, wrap-around runs included |
| Bookkeeping.Partition | src/tcp_stack.cpp:294-299 | every slot is in exactly one of the free list, the awaiting list and the flow table, once; together they are max_connections |
| Bookkeeping.SegmentMoves | src/tcp_stack.cpp:579-644 | what any segment can do to a slot's state, flags, addressing and lists |
| Bookkeeping.SegmentKeeps | src/tcp_stack.cpp:334-370 | and that the lists and the table keep their invariant under it |
| Bookkeeping.OpenKeeps | src/tcp_stack.cpp:409-446 | opening a slot keeps it |
| Bookkeeping.ReapKeeps | src/tcp_stack.cpp:754-765 | the swap-with-last removal of reaping keeps it |
| Bookkeeping.FinalizeKeeps | src/tcp_stack.cpp:797-809 | finalizing a slot keeps it |
| PollModel.ReceiveKeeps | src/tcp_stack.cpp:277-282 | one packet makes at most three events, at most one of a control segment and a new pending ACK, one finalization; the invariant is kept |
| PollModel.BurstKeeps | include/tcp_stack.h:133-138 | hence the bounds of a whole burst |
| PollModel.AcksExact | src/tcp_stack.cpp:767-781 | exactly one ACK, of rcv_nxt, for every slot that owes one, and no other |
| PollModel.SegmentOwes | src/tcp_stack.cpp:520-577 | a slot whose rcv_nxt moves, or that owed an ACK, owes one after the segment unless this reset it |
| PollModel.BurstOwes | src/tcp_stack.cpp:767-781 | so over a whole burst, whatever came after, slots opened in it included |
| PollModel.FlushesAll | src/tcp_stack.cpp:795-797 | hence every slot whose rcv_nxt moved in a poll, a last FIN included, has its ACK attempted before it is finalized, unless it was reset |
| PollModel.InputHasPeer | src/tcp_stack.cpp:733-737 | no frame from 0.0.0.0 reaches the flow table |
| Receivers.Receiver.constructor | src/tcp_stack.cpp:302-312 | all slots free and slot 0 first, invariant established |
| Receivers.Receiver.Terminate | src/tcp_stack.cpp:342-362 | the terminal slot, its one event, its one entry on the finalize list |
| Receivers.Receiver.QueueControl | src/tcp_stack.cpp:326-332 | a control segment is queued or counted as dropped, never lost |
| Receivers.Receiver.ProcessAck | src/tcp_stack.cpp:471-517 | refines the specification function for every pair of loads |
| Receivers.Receiver.ProcessData | src/tcp_stack.cpp:520-577 | refines the specification function |
| Receivers.Receiver.SendRst | src/tcp_stack.cpp:375-392 | attempts exactly the reset section 3.4 of RFC 793 asks for, and none for a reset |
| Receivers.Receiver.HandshakeSegment | src/tcp_stack.cpp:588-619 | the syn_received half: recycle, SYN-ACK again, reset, or accept |
| Receivers.Receiver.ProcessSegment | src/tcp_stack.cpp:579-644 | slot, lists, table, events and reply are those of the segment's outcome; invariant and buffer bounds kept |
| Receivers.Receiver.Open | src/tcp_stack.cpp:403-446 | the last free slot is taken with a positive send MSS and a SYN-ACK, or the SYN is refused with a reset |
| Receivers.Receiver.Process | src/tcp_stack.cpp:680-690 | routes a packet by its tuple to a slot, an open or a reset |
| Receivers.Receiver.ReapReleased | src/tcp_stack.cpp:754-765 | frees exactly the parked slots whose close() was seen |
| Receivers.Receiver.FlushAcks | src/tcp_stack.cpp:767-781 | attempts exactly the ACKs owed and leaves none owed |
| Receivers.Receiver.FlushControl | src/tcp_stack.cpp:783-793 | the NIC takes a prefix, the rest is counted as dropped |
| Receivers.Receiver.Finalize | src/tcp_stack.cpp:797-809 | every pending slot leaves the table, free or awaiting; slots are conserved |
| Receivers.Receiver.Poll | src/tcp_stack.cpp:817-827 | one poll is reap, then the burst, then the ACKs, then finalize; every slot that received has its ACK attempted before it is finalized; nothing stays pending; attempted = transmitted + dropped |
| Bytes.ReduceExact | src/tcp_stack.cpp:95-99 | the carry folds are reduction modulo 2^16 - 1 with 0 kept apart |
| Bytes.SumPut | src/ipv4_header.cpp:37-39 | writing a word over zeros adds it to the sum |
| Bytes.ComplementVerifies | src/tcp_stack.cpp:91-99 | a sum that includes its own complement folds to all ones |
| Wire.IpReads | src/ipv4_header.cpp:11-40 | the finished IPv4 header reads back and verifies |
| Wire.TcpVerifies | src/tcp_header.cpp:32-35 | the finished segment passes tcp_checksum_ok |
| Wire.ParseBuild | src/tcp_stack.cpp:715-749 | parsing any built frame, with any padding behind it, passes every test and returns the fields it was built from |
| Packets.Packet.LayOut | src/tcp_stack.cpp:57-84 | the appends and the adjusted data offset give the unfinished frame, if and only if it fits |
| Packets.Packet.FinalizeIpv4 | src/ipv4_header.cpp:33-40 | back-fills the length and checksum and nothing else |
| Packets.Packet.FinalizeTcp | src/tcp_header.cpp:32-35 | back-fills the checksum and nothing else |
| Packets.BuildSegment | src/tcp_stack.cpp:54-89 | succeeds exactly when the frame fits and then holds the frame ParseBuild reads |
| MssParser.ParseMssOption | src/tcp_stack.cpp:102-123 | the walk computes the recursive parse, never reads past the options, and is never 0 |
| MssParser.ParsesEncoded | src/tcp_stack.cpp:102-123 | behind any encoded options the first MSS option decides, else the default of section 4.2.2.6 of RFC 1122 |
| MssParser.OwnOptionParses | src/tcp_stack.cpp:72-82 | the option build_segment appends is read back |
| Rings.IndexUnwrapped | examples/tcp_echo_server.h:36-45 | slot numbers survive the counter's wrap when the capacity divides its range |
| Rings.IndexBrokenByWrap | examples/tcp_echo_server.h:36-45 | and for no other capacity |
| Rings.PowersSurvive | examples/tcp_echo_server.h:36-36 | every power of two does |
| Rings.SpscRing.Reserve | examples/tcp_echo_server.h:40-46 | a slot unless the ring was full at the load |
| Rings.SpscRing.Fill | examples/tcp_echo_server.h:208-217 | writing it touches no item still to be read |
| Rings.SpscRing.Commit | examples/tcp_echo_server.h:47-47 | the item joins the end |
| Rings.SpscRing.Front | examples/tcp_echo_server.h:51-57 | the oldest item, unless empty at the load |
| Rings.SpscRing.Pop | examples/tcp_echo_server.h:58-58 | removes exactly that one |
| EchoServer.Fifo | examples/tcp_echo_server.h:208-229 | at every moment popped, ring and overflow, in this order, are the items ever enqueued, and the ring holds at most its capacity |
| EchoServer.Server.Enqueue | examples/tcp_echo_server.h:208-217 | the item joins that sequence at the end; overflow is used exactly when the ring was full or others wait |
| EchoServer.Server.DrainOverflow | examples/tcp_echo_server.h:219-229 | the same sequence, emptied unless the ring was found full |
| EchoServer.Server.Handle | examples/tcp_echo_server.h:162-198 | an event adds exactly its work items |
| EchoBytes.ChunksCarry | examples/tcp_echo_server.h:168-179 | chunking loses and reorders nothing |
| EchoBytes.OwnerIsCurrent | examples/tcp_echo_server.h:136-139 | the slot of a data item in the queue is still its own connection's, and sendable() says so exactly while that one is alive |
| EchoBytes.DeadStays | src/tcp_stack.cpp:875-879 | no step makes a connection sendable again |
| EchoClose.CloseTells | examples/tcp_echo_server.h:240-246 | comparing generations tells whether the item's connection is closed already, exactly unless it is aliased; a close() it makes finds the slot |
| EchoClose.QueueStep | examples/tcp_echo_server.h:124-198 | every step keeps the order of the queue, and slots are re-opened only when no data item of theirs is left in it |
| EchoClose.CloseStep | examples/tcp_echo_server.h:240-246 | every step keeps the record of closes |
| EchoRuns.RunInv | examples/tcp_echo_server.h:124-153 | the queue, close and byte invariants hold in every run |
| EchoRuns.EchoSafe | examples/tcp_echo_server.h:124-153 | in every run the bytes taken for a connection are a prefix of those delivered, and all that was got through while it is sendable; close() is called at most once per connection and releases that one's slot; of the closing items processed it was called for exactly those not aliased |
| EchoRuns.ClosedIff | examples/tcp_echo_server.h:240-246 | in a run close() was called for every processed closing item if and only if none is whole generation cycles after its predecessor |
| EchoRuns.CloseSkipped | examples/tcp_echo_server.h:240-246 | a run in which a close() is skipped |
| Arp.ArpRoundTrip | src/arp.cpp:26-55 | a built packet, with any padding, parses back |
| Arp.KeysOnlyFromOurs | src/arp.cpp:139-142 | over any run of frames the bound is kept, no neighbour is lost, and each new one came with a packet that targeted us |
| Arp.AlwaysRefreshed | src/arp.cpp:141-142 | a known sender always has the address it announced last |
| Arp.ReportedUnlearned | src/arp.h:65-70 | an unlearned sender is reported as learned or replied exactly for a request for us from 0.0.0.0 or with the table full |
| Arp.ProbeIsReplied | src/arp.cpp:144-148 | a probe from 0.0.0.0 is such a request |
| Arp.RequestIsAnswered | src/arp.cpp:144-159 | the answer to a request, handled by the asker, teaches it the address |
| Arp.NeighborTable.constructor | src/arp.cpp:59-62 | an empty table is the empty map |
| Arp.NeighborTable.Learn | src/arp.cpp:78-92 | the bounded map update, overwriting when full, refusing 0.0.0.0 |
| Arp.NeighborTable.UpdateIfPresent | src/arp.cpp:94-104 | overwrites known senders only |
| Arp.NeighborTable.Find | src/arp.cpp:106-112 | is the map lookup |
| Arp.NeighborTable.HandleArp | src/arp.cpp:114-151 | merges as RFC 826 says, and gives the exact result and reply for every frame |

## Left out

- The C++ memory model: interleavings are sequentially consistent, so that release and acquire suffice is not shown.
- Retransmission, reassembly, timers, TIME_WAIT and liveness, none of which the library implements.
- `runtime`, `port`, `packet_pool`, `rx_queue`, queue claiming, UDP, multicast, the tap interface and the benchmarks: thin layers over DPDK or the operating system.
- `listen`, the `tcp_stack` constructor's errors and the taking of receiver and sender: they would only add easy members.
- `tcp_stats` other than `control_tx_dropped`.
- `send_space`, which is `sendable` and then `window_space`.
- The two hash functions, the power-of-two sizing of the tables and the quality of the initial sequence number.
- Byte order of the checksum: DPDK sums native words and stores the result in native order.
- Multi-segment packets, which `process` drops, and the contents of ARP replies on the control queue.
- Store order inside `process_segment` is a matter of `Protocol.dfy`; the receiver's methods make their stores as one update of the slot.
- The ARP frame is built as a value, not by appending and filling a packet buffer.
- `run_outbound` and `run_inbound` are steps of `EchoModel.dfy`, without their stop flags. There `lookup`, `sendable` and the stores of `open` each happen at one instant; `SlotLife.dfy` takes their loads and stores one at a time.
- `WindowRule` is about the sequence of acknowledgments process_ack takes, with the two numbers of each within 2^31 of those compared; it is not part of the two-thread invariant.
- FlowTables.FlowTable.Insert: asks for room for a new key, as the source's comment does; the receiver meets it.
- Packets.BuildSegment: asks for a buffer of at most 65535 bytes, where the 16-bit total length cannot wrap.
