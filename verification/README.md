# Verified models of the NewIP network stack

NewIP is an out-of-tree Linux network stack: a TCP variant and a UDP over a network layer
with variable-length addresses and bitmap-driven headers, with its own routing tables,
address configuration and a Bluetooth virtual device. This project models the parts of it
that keep state or transform bytes, and proves what they are for.

**The receive path** (`RedBlack`, `OutOfOrder`, `Receive`, `Window`). The out-of-order
queue is a sorted sequence together with a tree shape; the answers of `skb_try_coalesce`
are an arbitrary function. Everything is proved for every shape and every answer, and what
the code can get wrong is shown with red-black shapes. Unlike mainline Linux this code
trims what overlaps, so a queue that starts out disjoint does not stay so for every
arrival; the exact condition under which it does is proved. What every arrival adds to the
queue, and what it leaves alone, is `Receive.DataQueueBuffers`.

**The send path** (`SendQueue`, `SendRun`). The write queue with its send head,
`snd_una`, `snd_nxt`, `write_seq` and `packets_out`, over connect, sendmsg, transmission,
acknowledgement, retransmission, the window probe and FIN.

**32-bit numbers** (`SeqNum`, `TcpReceiver`, `ReceiveRun`, `TcpSender`, `TcpConn`,
`Endpoints`). Those models use unbounded stream offsets. The classes `TcpReceiver.TcpSock`,
`TcpSender.Sock` and `TcpConn.ConnSock` hold what the kernel holds: 32-bit sequence numbers
that wrap, queues updated in place, loops. Each method is proved to move its fields exactly
as the model moves the offsets, as long as what is live fits the number space, and the run
methods (`ReceiveRun.RunSocket`, `TcpConn.RunConn`, `Endpoints.RunBoth`) say so of whole
runs that may wrap any number of times.

**Both endpoints** (`Protocol`, `Completion`, `Endpoints`). A sender and a receiver joined by a network
that loses, duplicates and reorders. The main theorem, `Protocol.EndToEnd`, covers every
reachable state: what was read is a prefix of what was written, and nothing leaves the write
queue before the peer has it. `Endpoints.Connection` states it of two sockets on 32-bit
numbers with any initial sequence number. It rests on an invariant about segment
boundaries: they are fixed once sent, so no arrival ever needs trimming. Safety has a
counterpart: `Completion.NoRunIsStuck` continues every run to one in which the reader has
every byte and the write queue is empty.

**Closing** (`CloseProtocol`): the `new_state` table, FIN, reset and the receive state
machine over the same write queue; what never happens (the `...Keeps` lemmas), what must
happen (the `From...` lemmas, state by state) and that the exchange comes to its end
(`CloseProtocol.CloseCompletes`). **Congestion control** (`Threshold`): every writer of
`nip_ssthresh`, in 32-bit unsigned arithmetic.

**Wire formats** (`NipAddr`, `Checksum`, `NipHeader`, `UdpSplit`, `UdpReceive`): the address code as a
canonical, order-preserving, prefix-free code of the integers below 2^48; the Internet
checksum against its end-around-carry definition; header writing and parsing as inverses;
the UDP splitter against a reference cutting, and the receiver that gets every message
back (`UdpReceive.MessageArrives`).

**Routing and addresses** (`Fib`, `AddrConf`, `RouteRefs`): hash-bucket tables as maps with
a default; the three views of the configured addresses; reference counts of routes, per-CPU
copies and devices over every run, with RCU callbacks as steps of their own, and what each
operation leaves (the `...Leaves` lemmas).

**The ring** (`Ring`): one producer and one consumer whose tests, slot accesses and index
advances interleave step by step.

## Where the code falls short of a property

For each there is the exact condition and an input or a run that fails.

- A coalesce met on the search of the out-of-order tree (tcp_nip_input.c:408) appends the
  arrival without cutting it at the right neighbour, so queued segments can come to
  overlap: `OutOfOrder.DisjointExactlyOutsideHazard`, `OutOfOrder.HazardRun`. A mere
  retransmission can do it.
- Once they overlap, an arrival cut at other places can call the right trimmer for more
  bytes than are left: `TcpReceiver.TrimUnderflowsIff`, `OutOfOrder.TrimCanFail`. The
  results about the queue's order and content cover every arrival whose trims are defined
  (`OutOfOrder.Workable`); a sender like this one, whose boundaries are fixed once sent,
  never causes any other (`Protocol.ArrivalIsAdmissible`).
- The window probe can send a packet whose segment count was never set. It then never
  enters `packets_out` and its ACK is ignored: `SendQueue.ProbeKeepsIff`,
  `SendQueue.UncountedProbeLosesAck`. It needs a congestion budget below one MSS:
  `SendRun.BudgetIsPositive`.
- An ACK beyond `snd_nxt` is accepted in SYN_RECV, because the -1 of `tcp_nip_ack` becomes
  true in a `bool`: `CloseProtocol.ThirdAckIff`. `tcp_nip_check_req` keeps it from the
  segment that makes the child socket, so it takes a first segment that makes the child and
  is then rejected, and a second one: `CloseProtocol.SecondSegmentIff`,
  `CloseProtocol.ThirdAckRun`.
- The middle RTT band can take `nip_ssthresh` below its low minimum: `Threshold.LowMinIff`,
  `Threshold.LowMinCanBeMissed`.
- Deleting a route that has no entry of its own deletes the default route:
  `Fib.DeleteTarget`, `Fib.DefaultIsDeleted`.
- Without a total length in the packet the header parser can return an offset beyond the
  buffer: `NipHeader.OffsetBeyondIff`, `NipHeader.OffsetCanExceedBuffer`.
- An address whose bitlen is not a multiple of eight passes the validity check and does not
  survive encoding: `NipAddr.WholeBytesIff`, `NipAddr.OddBitlenIsLost`.

Two conditions are proved that nothing in the repository violates: a device with
`ignore_routes_with_linkdown` would keep its LOCAL routes when it goes down
(`AddrConf.DownAgreesIff`), but the flag is never set (`AddrConf.DefaultRunAgrees`); and the
ring's packet count holds for one ring size only (`Ring.PacketsOnlyForThatSize`), which is
the one the driver uses.

## Reading guide

A class holds the fields the source updates, a `View()` or a ghost field `abs` gives its
abstract state, `Valid()` its invariant, and its methods say which step of the model they are. `Inv`, `RxInv`,
`Ledger` and `ConnInv` are the invariants; a lemma named `...Keeps` says that a step keeps
one, a lemma about `Run` says what holds over every run. `hide` statements only keep
definitions out of proofs that do not need them.

## Model

| member | source | states |
|---|---|---|
| SeqNum.SubOfWrap | src/linux/net/newip/tcp_nip_input.c:114-146 | modular subtraction of two 32-bit numbers gives the distance of the stream offsets behind them, for every distance below 2^32 |
| SeqNum.BeforeOfWrap | src/linux/net/newip/tcp_nip_input.c:280-540 | `before()` on the 32-bit numbers is `<` on the stream offsets whenever these are less than 2^31 apart (section 3.4 of RFC 9293) |
| SeqNum.BeforeIsAmbiguousAtHalfRange | src/linux/net/newip/tcp_nip_input.c:280-540 | at a distance of exactly 2^31 `before()` holds both ways, so the 2^31 bound cannot be widened |
| SeqNum.AddOfWrap | src/linux/net/newip/tcp_nip_input.c:114-146 | adding in 32 bits is adding on offsets, across any number of wraps |
| SeqNum.WrapInjective | src/linux/net/newip/tcp_nip_input.c:170-202 | two live sequence numbers are equal exactly when the offsets are |
| Segments.TrimsCarry | src/linux/net/newip/tcp_nip_input.c:114-146 | a segment trimmed on either side still carries the stream at its new sequence range |
| Segments.JoinCarries | src/linux/net/newip/tcp_nip_input.c:170-202 | a coalesced buffer carries the stream over both ranges |
| RedBlack.BalancedAbove | src/linux/net/newip/tcp_nip_input.c:364-416 | for every number of nodes and every node but the last there is a red-black tree with that node above its successor, except for the first of three nodes |
| RedBlack.ThreeNodes | src/linux/net/newip/tcp_nip_input.c:364-416 | three nodes make one red-black tree only |
| RedBlack.AnySize | src/linux/net/newip/tcp_nip_input.c:364-416 | there is a red-black tree of every size |
| OutOfOrder.WalkFits | src/linux/net/newip/tcp_nip_input.c:364-413 | whatever the tree's shape, the search stops at a leaf whose two neighbours enclose the arrival, at the node that holds its first byte, or at a node it was appended to |
| OutOfOrder.DecideIsSound | src/linux/net/newip/tcp_nip_input.c:280-428 | for any tree shape and any coalesce answers, an arrival is dropped, appended or linked only where its bytes belong: dropped only if some segment holds its first byte and either covers it or refused the rest; appended only behind an adjacent end; linked only between its neighbours or in place of a shorter segment with the same start |
| OutOfOrder.DisjointIsWorkable | src/linux/net/newip/tcp_nip_input.c:376-389 | on a disjoint queue every trim is defined, whatever arrives |
| OutOfOrder.CellIsWorkable | src/linux/net/newip/tcp_nip_input.c:376-389 | on any sorted queue, overlapping or not, an arrival with no queued boundary inside it calls for no trim |
| OutOfOrder.InsertKeepsSorted | src/linux/net/newip/tcp_nip_input.c:280-450 | every insertion whose trims are defined leaves the queue sorted with `ooo_last_skb` at its maximum, overlapping queues included (so the `skb2` at line 385 exists and line 339 is a free slot) |
| OutOfOrder.InsertKeepsDisjoint | src/linux/net/newip/tcp_nip_input.c:280-450 | in every red-black tree, outside the case of line 408 every insertion leaves the queue pairwise disjoint |
| OutOfOrder.SparedIsNoMerge | src/linux/net/newip/tcp_nip_input.c:364-412 | with three queued segments the one red-black tree makes a repetition of the second meet it first, so nothing is appended |
| OutOfOrder.WalkOverGap | src/linux/net/newip/tcp_nip_input.c:364-412 | with a gap behind the segment the arrival continues, every search meets that segment |
| OutOfOrder.WalkAtSeam | src/linux/net/newip/tcp_nip_input.c:364-412 | with no gap there, a search meets whichever of the two neighbours is above the other in the tree |
| OutOfOrder.HazardBreaksDisjoint | src/linux/net/newip/tcp_nip_input.c:404-412 | inside that case some red-black tree and coalesce answer do make two queued segments overlap: the append met on the walk is not cut at the right neighbour |
| OutOfOrder.DisjointExactlyOutsideHazard | src/linux/net/newip/tcp_nip_input.c:280-450 | the exact condition: all insertions of an arrival, in every red-black tree, keep the queue disjoint if and only if it does not start at the end of a queued segment and run into the next one while starting before the last, or the queue is three segments and it starts with the second right behind the first |
| OutOfOrder.HazardRun | src/linux/net/newip/tcp_nip_input.c:280-450 | a run from the empty queue: four adjacent segments arrive without coalescing, the third arrives again and coalesces with the second, and two queued segments overlap |
| OutOfOrder.TrimCanFail | src/linux/net/newip/tcp_nip_input.c:383-387 | the run goes on: an arrival cut differently is then to lose six of four remaining bytes |
| OutOfOrder.MergeDisjointIff | src/linux/net/newip/tcp_nip_input.c:404-412 | appending to a queued segment keeps the queue disjoint if and only if the appended bytes stop before the next segment |
| OutOfOrder.InsertCoverage | src/linux/net/newip/tcp_nip_input.c:280-450 | exactly which bytes the queue holds afterwards: all old ones, and of the arrival either every byte or, when it starts inside a segment and reaches past it, the piece up to the next segment if the coalesce succeeds; nothing else |
| OutOfOrder.InsertCoversCell | src/linux/net/newip/tcp_nip_input.c:280-450 | without a queued boundary inside the arrival the queue afterwards holds exactly what it held and the arrival, even where queued segments overlap |
| OutOfOrder.InsertCarries | src/linux/net/newip/tcp_nip_input.c:280-450 | every queued payload equals the stream at its sequence range after every insertion whose trims are defined |
| OutOfOrder.InsertWithin | src/linux/net/newip/tcp_nip_input.c:280-450 | an insertion whose trims are defined never moves a segment boundary outside the range that held the queue and the arrival |
| OutOfOrder.InsertOnCuts | src/linux/net/newip/tcp_nip_input.c:280-450 | when no queued boundary lies inside the arrival, no new boundary appears: nothing is ever cut |
| Receive.ClassifyMeaning | src/linux/net/newip/tcp_nip_input.c:453-540 | an arrival is delivered if and only if it brings the next byte and ends within the window, and goes out of order if and only if it starts later and ends within it |
| Receive.DropsMeaning | src/linux/net/newip/tcp_nip_input.c:458-518 | which of the other arrivals are empty, do not fit the window although they bring a wanted byte, or bring none |
| Receive.SequenceMeaning | src/linux/net/newip/tcp_nip_input.c:1438-1445 | `tcp_nip_sequence` never turns away what would be taken; it turns away from the first number behind the window on and before the last offer, both ends tight |
| Receive.DrainIsOrdered | src/linux/net/newip/tcp_nip_input.c:228-273 | the drain keeps the receive queue gap-free up to the new `rcv_nxt` and leaves a suffix of the tree in which nothing starts at or before it |
| Receive.DrainIsMaximal | src/linux/net/newip/tcp_nip_input.c:228-273 | the drain moves `rcv_nxt` exactly to the first byte not buffered: everything before was held, nothing beyond is lost |
| Receive.DataQueueKeeps | src/linux/net/newip/tcp_nip_input.c:453-540 | every arrival keeps the gap-free chain, the sorted tree with its cached maximum and everything at or left of the offered edge; `rcv_nxt` never moves back, and moves exactly for an arrival that brings its byte within the window |
| Receive.DataQueueBuffers | src/linux/net/newip/tcp_nip_input.c:453-540 | what becomes of any arrival but the next in order: one that fits the window is buffered, all of it when no queued boundary lies inside it, otherwise all but what the trims take off; over the memory limit, beyond the window or wholly old it changes nothing |
| Receive.DataQueueCarries | src/linux/net/newip/tcp_nip_input.c:453-540 | whatever is queued, in order or not, equals the stream at its sequence range |
| Receive.DataQueueKeepsDisjoint | src/linux/net/newip/tcp_nip_input.c:453-540 | outside the line-408 case an arrival also keeps the tree disjoint |
| Receive.InOrderDelivers | src/linux/net/newip/tcp_nip_input.c:512-533 | an in-order arrival delivers itself and the buffered run behind it, up to the first byte neither held |
| Receive.ReadKeepsChain | src/linux/net/newip/tcp_nip.c:1105-1261 | a read returns as many bytes as asked for or available and leaves the head straddling `copied_seq` |
| Receive.ReadIsStream | src/linux/net/newip/tcp_nip.c:1105-1261 | the bytes returned are the stream from `copied_seq` on |
| Receive.ReadIsNextBytes | src/linux/net/newip/tcp_nip.c:1105-1261 | both together, with the remaining queue still carrying the stream |
| Receive.OfferKeeps | src/linux/net/newip/tcp_nip_output.c:194-246 | offering a window keeps the receiver's invariant and moves only `rcv_wup` and `rcv_wnd`; the new right edge is the one selected or the old one rounded up by less than a unit, whichever is further |
| Window.FreeWindowFits | src/linux/net/newip/tcp_nip_output.c:133-186 | the selected window is a whole number of scale units, is within one unit above the lesser of free space and cap, and is zero exactly when there is no usable space or the cap is zero |
| Window.WindowOpens | src/linux/net/newip/tcp_nip_output.c:139-160 | when the window is open: with half the buffer free whenever there is space and a cap; below that exactly when the free space in whole units is a sixteenth of the buffer and a segment, and then it is no silly window (section 4.2.3.3 of RFC 1122) |
| Window.CapInForce | src/linux/net/newip/tcp_nip_output.c:162-170 | the window keeps to the threshold in force (`nip_ssthresh`, `rcv_ssthresh` or `ssthresh_high`, by the two switches) to within a unit, and reaches it when that much is free |
| Window.NewWindowKeepsEdge | src/linux/net/newip/tcp_nip_output.c:194-246 | the right edge never moves left and stays a whole number of units; a fallback overshoots the old edge by less than one unit |
| Window.DecodedWindow | src/linux/net/newip/tcp_nip_output.c:194-246 | the peer decodes exactly the selected window, up to the cap of the 16-bit field: the scaling loses nothing |
| Window.MoveNeverShrinks | src/linux/net/newip/tcp_nip_output.c:194-246 | a receive or a transmit moves neither the offered nor the decoded edge left, a receive moves `rcv_nxt` by its bytes, and after a transmit the peer has seen the offer up to the cap |
| Window.OfferNeverShrinks | src/linux/net/newip/tcp_nip_output.c:133-246 | over every run of receives and transmits both edges are non-decreasing and `rcv_nxt` stays within the offer (section 4.2.2.16 of RFC 1122) |
| TcpReceiver.ClassifyOfImage | src/linux/net/newip/tcp_nip_input.c:458-518 | every accept, drop and trim decision on 32-bit numbers is the decision on unbounded offsets, for every arrival within 2^31 of `rcv_nxt` and every window up to 2^31 less 2^16 |
| TcpReceiver.WindowOfImage | src/linux/net/newip/tcp_nip_input.c:458-459 | the receive window computed in 32 bits is the one on offsets |
| TcpReceiver.SequenceOfImage | src/linux/net/newip/tcp_nip_input.c:1438-1445 | the first acceptance test in 32 bits is the one on offsets |
| TcpReceiver.LeftOverlapOfImage | src/linux/net/newip/tcp_nip_input.c:124-132 | the left trimmer's modular subtraction removes exactly the bytes the other segment holds |
| TcpReceiver.RightOverlapOfImage | src/linux/net/newip/tcp_nip_input.c:134-146 | the right trimmer removes exactly the bytes from the other segment's start on |
| TcpReceiver.TrimUnderflowsIff | src/linux/net/newip/tcp_nip_input.c:383-387 | the exact condition: the right trimmer is called to take off more bytes than the left one has left if and only if the next queued segment starts before the host of the arrival ends |
| TcpReceiver.SearchTree | src/linux/net/newip/tcp_nip_input.c:364-413 | the search loop with `before()` takes the same path as the search on offsets |
| TcpReceiver.MergeRight | src/linux/net/newip/tcp_nip_input.c:420-437 | the loop that erases covered neighbours stops where the model does and leaves the same trimmed arrival |
| TcpReceiver.DecideOfo | src/linux/net/newip/tcp_nip_input.c:305-413 | all branches before the queue is changed, on 32-bit numbers, reach the model's verdict |
| TcpReceiver.Link | src/linux/net/newip/tcp_nip_input.c:414-437 | the queue and `ooo_last_skb` after an append, a link or a drop are the images of the model's |
| TcpReceiver.InsertOfo | src/linux/net/newip/tcp_nip_input.c:280-450 | the whole insertion on 32-bit buffers equals the insertion on offsets |
| TcpReceiver.DrainOfo | src/linux/net/newip/tcp_nip_input.c:228-273 | the drain loop on 32-bit buffers equals the drain on offsets |
| TcpReceiver.DeliverSegment | src/linux/net/newip/tcp_nip_input.c:512-533 | trim to `rcv_nxt`, queue and drain, on 32-bit buffers, equal the model |
| TcpReceiver.WalkStopsAtHead | src/linux/net/newip/tcp_nip.c:1127-1157 | on a gap-free queue the walk for unread bytes stops at the head and neither WARN fires |
| TcpReceiver.ReadRound | src/linux/net/newip/tcp_nip.c:1127-1246 | one round of the copy loop takes the next bytes of the stream from the head and keeps the chain |
| TcpReceiver.ReadQueue | src/linux/net/newip/tcp_nip.c:1105-1261 | the copy loop returns exactly the model's bytes, and no WARN fires |
| TcpReceiver.TcpSock.constructor | src/linux/net/newip/tcp_nip_input.c:1645-1745 | a fresh connection satisfies the invariant |
| TcpReceiver.TcpSock.DataQueueOfo | src/linux/net/newip/tcp_nip_input.c:280-450 | the socket's out-of-order fields move exactly as the model does and keep the invariant |
| TcpReceiver.TcpSock.Sequence | src/linux/net/newip/tcp_nip_input.c:1438-1445 | `tcp_nip_sequence` on the socket answers as on offsets |
| TcpReceiver.TcpSock.DataQueue | src/linux/net/newip/tcp_nip_input.c:453-540 | the socket's state after any arrival is the image of the model's |
| TcpReceiver.TcpSock.Deliver | src/linux/net/newip/tcp_nip_input.c:512-533 | the in-order branch, likewise |
| TcpReceiver.TcpSock.RecvMsg | src/linux/net/newip/tcp_nip.c:1105-1261 | recvmsg returns the next bytes of the stream, moves `copied_seq` past them, and no WARN fires |
| TcpReceiver.TcpSock.CleanupRbufWarns | src/linux/net/newip/tcp_nip.c:1051-1060 | the WARN condition of `tcp_nip_cleanup_rbuf` is unreachable |
| TcpReceiver.TcpSock.SelectWindow | src/linux/net/newip/tcp_nip_output.c:194-246 | `rcv_wup`, `rcv_wnd` and the field sent are the model's; the edge does not move left |
| ReceiveRun.StepKeeps | src/linux/net/newip/tcp_nip_input.c:453-540 | arrivals, reads and offered windows each keep the receiver's invariant; `rcv_nxt` and the edge never move back; `copied_seq` moves by what was read |
| ReceiveRun.RunIsStream | src/linux/net/newip/tcp_nip_input.c:228-540 | over every run, all bytes ever read are the stream from the first `copied_seq` on |
| ReceiveRun.RunSocket | src/linux/net/newip/tcp_nip_input.c:280-540 | over every run, wrapping any number of times, the 32-bit socket has the model's state and returns the model's bytes, as long as its window stays below 2^31 less 2^16 |
| SendQueue.LedgerMeaning | src/linux/net/newip/tcp_nip_output.c:86-106 | `snd_una <= snd_nxt <= write_seq`; `packets_out` is the number of sent packets still queued, and is 0 exactly when `snd_una == snd_nxt`; a send head exists exactly when `snd_nxt < write_seq` |
| SendQueue.ConnectKeeps | src/linux/net/newip/tcp_nip_output.c:589-622 | connect establishes the ledger if and only if the transmission was not refused (a refused one returns before `snd_nxt` is set) |
| SendQueue.EnqueueKeeps | src/linux/net/newip/tcp_nip_output.c:573-582 | queuing behind `write_seq` keeps the queue contiguous and the send head at `snd_nxt` |
| SendQueue.EntailKeeps | src/linux/net/newip/tcp_nip.c:913-1043 | sendmsg appends packets of at most one MSS holding the bytes it takes, touches nothing already queued, and advances `write_seq` by their number |
| SendQueue.XmitKeeps | src/linux/net/newip/tcp_nip_output.c:1042-1088 | transmission keeps the ledger and changes only the send head, `snd_nxt`, the counts and `packets_out`; it sends at most the budget |
| SendQueue.XmitSends | src/linux/net/newip/tcp_nip_output.c:1005-1088 | no packet's bytes change, and every packet sent ends within the peer's window |
| SendQueue.LongPackets | src/linux/net/newip/tcp_nip_output.c:1005-1040 | the segment count is the least that covers a packet, and the window test of a packet longer than one MSS is that of its first segment |
| SendQueue.XmitStops | src/linux/net/newip/tcp_nip_output.c:1042-1088 | when transmission stops: at the end of the queue, with the budget used up, at a refusal of the device, or at a packet that does not fit the window (one that ends exactly at the edge does) |
| SendQueue.XmitSendsAll | src/linux/net/newip/tcp_nip_output.c:1042-1088 | with room in the window, budget and no refusal everything queued is sent |
| SendQueue.CleanExact | src/linux/net/newip/tcp_nip_input.c:671-711 | the clean-up removes exactly the sent packets that `snd_una` covers in full and takes each off `packets_out` once |
| SendQueue.AckKeeps | src/linux/net/newip/tcp_nip_input.c:1386-1436 | an ACK between `snd_una` and `snd_nxt` moves `snd_una` to it and removes exactly the packets it covers; an older or a too new one changes nothing and answers 0 or -1 |
| SendQueue.AckKeepsOrder | src/linux/net/newip/tcp_nip_input.c:1386-1436 | even when a packet was sent uncounted, an ACK at a packet boundary removes only packets it covers |
| SendQueue.AckEdge | src/linux/net/newip/tcp_nip_input.c:1135-1162 | no ACK, reordered ones included, moves the remembered window edge beyond the old one or the one it names |
| SendQueue.NewestAckOpens | src/linux/net/newip/tcp_nip_input.c:1135-1162 | the newest ACK (by number, then seq, then window) moves `snd_una` to it and sets the window and its edge to what it names, wider or narrower |
| SendQueue.OlderAckIsStale | src/linux/net/newip/tcp_nip_input.c:1135-1162 | an ACK the peer sent before one already processed changes neither queue nor window |
| SendQueue.RetransmitKeeps | src/linux/net/newip/tcp_nip_output.c:1104-1152 | retransmission keeps the ledger and changes nothing but the acknowledged front of the packet and its count |
| SendQueue.RetransmitSendsIff | src/linux/net/newip/tcp_nip_output.c:1125-1130 | a retransmission goes out if and only if what is left of the packet starts within the window or is the oldest byte out; the oldest packet always does |
| SendQueue.RefreshedCarries | src/linux/net/newip/tcp_nip_output.c:1117-1123 | what goes out again holds the same stream up to the same end, from `snd_una` on if that is inside |
| SendQueue.SplitKeeps | src/linux/net/newip/tcp_nip_output.c:1263-1271 | cutting the send head at the window's edge keeps the queue contiguous and readies the head |
| SendQueue.ProbeKeepsIff | src/linux/net/newip/tcp_nip_output.c:1244-1281 | the exact condition: the probe keeps the ledger if and only if it does not send a whole head that was never counted |
| SendQueue.ProbeSends | src/linux/net/newip/tcp_nip_output.c:1244-1281 | a probe sends the head up to the window's edge, exactly when it starts inside and the device takes it |
| SendQueue.UncountedProbeLosesAck | src/linux/net/newip/tcp_nip_output.c:1244-1281 | a concrete run in which it does: with a budget below one MSS the probe sends an uncounted packet, `packets_out` stays 0 and the ACK for it is ignored |
| SendQueue.QueueFinKeeps | src/linux/net/newip/tcp_nip_output.c:952-978 | the FIN takes the last sequence number, on the unsent tail if there is one and otherwise in a packet of its own; no payload changes, and the ledger holds |
| SendRun.BudgetIsPositive | src/linux/net/newip/tcp_nip_output.c:1042-1067 | a push has budget for a packet if and only if one MSS fits the threshold in force |
| SendRun.BudgetIsExact | src/linux/net/newip/tcp_nip_output.c:1046-1068 | the budget is exactly how many packets of one MSS fit the threshold in force |
| SendRun.XmitReadies | src/linux/net/newip/tcp_nip_output.c:1042-1088 | a push with budget either sends or leaves the head counted |
| SendRun.StepKeeps | src/linux/net/newip/tcp_nip_output.c:952-1281 | writes, ACKs, close, retransmissions and probes, each with its push, keep ledger and FIN placement; `snd_una` and `write_seq` never move back, nothing is queued behind a FIN |
| SendRun.RunKeeps | src/linux/net/newip/tcp_nip_output.c:952-1281 | the same over every run whose pushes have budget; in particular the probe then never sends an uncounted head |
| SendRun.ConnectStarts | src/linux/net/newip/tcp_nip_output.c:589-622 | connect starts such a run |
| TcpSender.WindowTest | src/linux/net/newip/tcp_nip_output.c:1005-1015 | the window comparisons on 32-bit numbers are those on offsets for everything queued |
| TcpSender.AckTests | src/linux/net/newip/tcp_nip_input.c:1398-1401 | the acceptability tests of `tcp_nip_ack` on 32-bit numbers are those on offsets, for any ACK within 2^31 of `snd_una` |
| TcpSender.Sock.constructor | src/linux/net/newip/tcp_nip_output.c:589-622 | a socket after connect, with the ledger established |
| TcpSender.Sock.AfterSyn | src/linux/net/newip/tcp_nip_input.c:871-979 | the sending half of a socket whose handshake is done, with any initial number |
| TcpSender.Sock.CopyLoop | src/linux/net/newip/tcp_nip.c:913-1043 | the copy loop queues what the model queues and counts the bytes taken |
| TcpSender.Sock.WriteXmit | src/linux/net/newip/tcp_nip_output.c:1042-1088 | the transmit loop leaves the model's state |
| TcpSender.Sock.CleanRtxQueue | src/linux/net/newip/tcp_nip_input.c:671-711 | the clean-up loop restores the full ledger and leaves the model's state |
| TcpSender.Sock.Acknowledge | src/linux/net/newip/tcp_nip_input.c:1386-1436 | state and answer of `tcp_nip_ack` are the model's |
| TcpSender.Sock.UpdateWindow | src/linux/net/newip/tcp_nip_input.c:1135-1162 | the window update, with its 32-bit tests, is the model's |
| TcpSender.Sock.SendFin | src/linux/net/newip/tcp_nip_output.c:952-978 | queuing the FIN leaves the model's state |
| TcpSender.Sock.RetransmitSkb | src/linux/net/newip/tcp_nip_output.c:1111-1152 | trim, window test and recount leave the model's state |
| TcpSender.Sock.ProbeTests | src/linux/net/newip/tcp_nip_output.c:1253-1263 | the probe's tests and the split length in 32 bits are those on offsets |
| TcpSender.Sock.FragmentHead | src/linux/net/newip/tcp_nip_output.c:1263-1271 | the split of the send head leaves the model's two packets |
| TcpSender.Sock.WriteWakeup | src/linux/net/newip/tcp_nip_output.c:1244-1281 | the probe of a counted head leaves the model's state, hence the ledger |
| TcpSender.Sock.SendMsg | src/linux/net/newip/tcp_nip.c:913-1043 | sendmsg with its push is one step of the run model, and answers how many bytes it took |
| TcpSender.Sock.ReceiveAck | src/linux/net/newip/tcp_nip_input.c:1386-1436 | an ACK with the push behind it is one step of the run model |
| TcpSender.Sock.CloseSend | src/linux/net/newip/tcp_nip_output.c:952-982 | queuing and pushing the FIN, at most once, is one step of the run model |
| Protocol.TransmitIsXmit | src/linux/net/newip/tcp_nip_output.c:1042-1088 | putting packets on the wire one by one moves the sender exactly as `tcp_nip_write_xmit` does |
| Protocol.ResendIsRepeat | src/linux/net/newip/tcp_nip_output.c:1111-1152 | a retransmission repeats a segment already sent, unchanged: segment boundaries are fixed once sent |
| Protocol.ArrivalIsAdmissible | src/linux/net/newip/tcp_nip_input.c:280-450 | nothing this sender puts on the wire ever has to be cut at the receiver, in order or out of order |
| Protocol.ArrivalIsTaken | src/linux/net/newip/tcp_nip_input.c:453-540 | what an arrival leaves: exactly its bytes are added to what the receiver has, delivered or buffered, unless it would have to be buffered over the memory limit; `rcv_nxt` is again the first byte missing; nothing else moves |
| Protocol.NothingBeyondEdge | src/linux/net/newip/tcp_nip_output.c:1005-1015 | nothing on the wire passes the edge the receiver has offered, so no arrival is refused for lack of room |
| Protocol.NewestAckSetsEdge | src/linux/net/newip/tcp_nip_input.c:1386-1436 | once the newest ACK has arrived, the sender's edge is the one it names and all it covers is off the queue |
| Protocol.FrontIsDeliverable | src/linux/net/newip/tcp_nip_timer.c:137-204 | once the ACKs are up to date, the oldest unacknowledged packet, sent again, is delivered |
| Protocol.StepKeeps | src/linux/net/newip/tcp_nip_input.c:453-540 | write, ACK, retransmission, probe, arrival, read and window offer keep the joint invariant of both endpoints and the network |
| Protocol.EntailCarries | src/linux/net/newip/tcp_nip.c:913-1043 | sendmsg queues exactly the bytes it takes, at the offsets they are written to |
| Protocol.StepCarries | src/linux/net/newip/tcp_nip_input.c:453-540 | every queue and every packet in the network keeps holding the written stream at its offsets |
| Protocol.RunKeeps | src/linux/net/newip/tcp_nip_input.c:453-540 | both, over every run |
| Protocol.EndToEnd | src/linux/net/newip/tcp_nip_input.c:453-540 | in every state reachable under loss, duplication and reordering, from any first sequence number: the bytes read are a prefix of the bytes written; `snd_una <= rcv_nxt <= snd_nxt`; what is not acknowledged is still queued; nothing was sent past the offered window |
| Completion.HealthyStep | src/linux/net/newip/tcp_nip_input.c:453-540 | every event whose push has budget keeps the joint invariant and the sender's ledger |
| Completion.NextArrives | src/linux/net/newip/tcp_nip_input.c:453-540 | as long as something sent is missing, a packet that holds the next byte is on the wire, and its arrival advances `rcv_nxt` |
| Completion.AckGoesOut | src/linux/net/newip/tcp_nip_output.c:194-246 | the receiver can always send an ACK that names `rcv_nxt`, an open window, and a number newer than any the sender has seen |
| Completion.AckSettles | src/linux/net/newip/tcp_nip_input.c:1386-1436 | that ACK leaves nothing unacknowledged and the window open, and the push behind it sends the next packet unless that is too long for the window |
| Completion.ProbeMoves | src/linux/net/newip/tcp_nip_output.c:1244-1281 | then the probe sends at least one byte of it |
| Completion.CanComplete | src/linux/net/newip/tcp_nip_input.c:453-540 | from every healthy state there are steps, none of them a write, after which everything written is acknowledged and read |
| Completion.NoRunIsStuck | src/linux/net/newip/tcp_nip_input.c:453-540 | liveness: whatever was lost, delayed, repeated or reordered, every run whose pushes have budget can be continued so that the reader has exactly the bytes the writer gave and the write queue is empty |
| Endpoints.SenderStep | src/linux/net/newip/tcp_nip_output.c:1042-1088 | the sender inside the protocol makes exactly the steps of its own run |
| Endpoints.StepKeeps | src/linux/net/newip/tcp_nip_input.c:453-540 | every event keeps the joint invariant together with the sender's ledger |
| Endpoints.HandleSend | src/linux/net/newip/tcp_nip.c:913-1043 | the sending socket, on 32-bit numbers, makes the protocol's step for a write, an ACK, a retransmission or a probe, and what it took is what was written |
| Endpoints.HandleReceive | src/linux/net/newip/tcp_nip_input.c:1540-1563 | the receiving socket, on 32-bit numbers, makes the protocol's step for an arrival, a read or a window offer, and what it returned is what was read |
| Endpoints.RunBoth | src/linux/net/newip/tcp_nip_input.c:453-540 | over a run of any length both sockets end where the protocol does |
| Endpoints.Connection | src/linux/net/newip/tcp_nip.c:1105-1261 | end to end on the code's own 32-bit numbers, from any initial one: what the receiving socket returned is a prefix of what the sending socket took, and the rest of `Protocol.EndToEnd` holds of both |
| CloseProtocol.CloseStateKeeps | src/linux/net/newip/tcp_nip.c:93-132 | shutting down the sending side queues the one FIN and moves strictly forward |
| CloseProtocol.ClosingLeads | src/linux/net/newip/tcp_nip.c:93-132 | closing queues the FIN behind everything and leads from ESTABLISHED and SYN_RECV to FIN_WAIT1, from CLOSE_WAIT to LAST_ACK, from SYN_SENT to CLOSE; a side already closed is left alone |
| CloseProtocol.CallsLead | src/linux/net/newip/tcp_nip.c:148-237 | shutdown acts on the sides it names, close on both, close with unread data drops the connection without a FIN |
| CloseProtocol.CloseCompletes | src/linux/net/newip/tcp_nip.c:93-132 | the close exchange ends: with room in the window the FIN goes out, and the acknowledgement of everything takes the first closer to FIN_WAIT2 and the second to the orderly CLOSE |
| CloseProtocol.StateProcessKeeps | src/linux/net/newip/tcp_nip_input.c:1756-1923 | a segment in any state but ESTABLISHED keeps the invariant and moves the state forward or leaves it |
| CloseProtocol.SynSentKeeps | src/linux/net/newip/tcp_nip_input.c:1645-1745 | likewise for the second handshake segment |
| CloseProtocol.OnAckKeeps | src/linux/net/newip/tcp_nip_input.c:1821-1877 | the switch after the ACK enters FIN_WAIT2, or leaves LAST_ACK in order, only with everything acknowledged, and leaves neither FIN_WAIT1 nor LAST_ACK standing when it is |
| CloseProtocol.BringsDataMeaning | src/linux/net/newip/tcp_nip_input.c:1848-1850 | a segment of n bytes brings data exactly when the last of them, or its FIN, is at `rcv_nxt` or beyond |
| CloseProtocol.FromFinWait1 | src/linux/net/newip/tcp_nip_input.c:1838-1866 | FIN_WAIT1 is left for FIN_WAIT2 if and only if everything is acknowledged and no data comes with it; for CLOSING if and only if the FIN is delivered before that; for CLOSE if and only if data comes too late (compare figure 5 of RFC 9293) |
| CloseProtocol.FromLastAck | src/linux/net/newip/tcp_nip_input.c:1873-1881 | LAST_ACK ends in the orderly CLOSE if and only if everything is acknowledged, and otherwise only by a reset for late data |
| CloseProtocol.FromQuietStates | src/linux/net/newip/tcp_nip_input.c:1884-1911 | from FIN_WAIT2, CLOSING and CLOSE_WAIT a segment leads to CLOSE exactly by late data, and nowhere else |
| CloseProtocol.FromSynRecv | src/linux/net/newip/tcp_nip_input.c:1811-1835 | SYN_RECV is left exactly when the ACK is not old, for CLOSE_WAIT if the FIN is delivered too, with `snd_una` at the number named |
| CloseProtocol.FromSynSent | src/linux/net/newip/tcp_nip_input.c:1645-1745 | SYN_SENT is left for ESTABLISHED if and only if a SYN acknowledges what was sent, for CLOSE if and only if a reset does; everything else changes nothing |
| CloseProtocol.FromEstablished | src/linux/net/newip/tcp_nip_input.c:1540-1563 | ESTABLISHED is left for CLOSE_WAIT if and only if a FIN is delivered; the ACK is taken either way |
| CloseProtocol.FromInvalid | src/linux/net/newip/tcp_nip_input.c:1502-1538 | a segment that fails validation resets the connection, with nothing left queued, or changes nothing |
| CloseProtocol.ThirdAckIff | src/linux/net/newip/tcp_nip_input.c:1811-1835 | the exact condition in SYN_RECV: the invariant survives an ACK if and only if it names no more than was sent (the -1 of `tcp_nip_ack` is taken for acceptance) |
| CloseProtocol.BornHolds | src/linux/net/newip/tcp_nip_input.c:1955-2010 | the segment for which `tcp_nip_check_req` makes a child acknowledges exactly the SYN+ACK and never breaks it; the child stays in SYN_RECV if and only if that segment fails validation without resetting |
| CloseProtocol.SecondSegmentIff | src/linux/net/newip/tcp_nip_output.c:887-907 | the exact condition for the segment after it: it breaks the connection if and only if the first was rejected and it names more than was sent |
| CloseProtocol.ThirdAckRun | src/linux/net/newip/tcp_nip_input.c:1811-1835 | such a run: a first segment beyond the receive window makes the child, a second one within it acknowledges two bytes of none |
| CloseProtocol.ShutdownKeeps | src/linux/net/newip/tcp_nip.c:148-161 | shutdown of either side, or both, keeps the invariant and leads forward or nowhere |
| CloseProtocol.CloseConnKeeps | src/linux/net/newip/tcp_nip.c:163-237 | close, with or without unread data, likewise |
| CloseProtocol.ArriveKeeps | src/linux/net/newip/tcp_nip_input.c:1540-1563 | any segment in any state likewise |
| CloseProtocol.StepKeeps | src/linux/net/newip/tcp_nip_input.c:1756-1923 | shutdown, close, segments, aborts, sends and timers each keep the invariant and lead strictly forward or not at all |
| CloseProtocol.EventsLead | src/linux/net/newip/tcp_nip_timer.c:330-362 | an abort closes at once, the keepalive timer only an orphan in FIN_WAIT2 or CLOSING; sending goes on until this side closes, retransmission and probes until CLOSE |
| CloseProtocol.RunIsBounded | src/linux/net/newip/tcp_nip.c:93-161 | over every run at most four state changes; at most one FIN, holding the last sequence number; FIN_WAIT2 and the orderly end of LAST_ACK only when all data and the FIN are acknowledged (compare section 3.3.2 of RFC 9293) |
| CloseProtocol.StartsHold | src/linux/net/newip/tcp_nip_output.c:589-622 | both the active and the passive start satisfy the invariant |
| TcpConn.BringsDataOfImage | src/linux/net/newip/tcp_nip_input.c:1849-1850 | the test for payload beyond `rcv_nxt` in 32 bits is the one on offsets |
| TcpConn.SynSentTests | src/linux/net/newip/tcp_nip_input.c:1658-1664 | the acceptance tests of the second handshake segment in 32 bits are those on offsets |
| TcpConn.AllAckedTest | src/linux/net/newip/tcp_nip_input.c:1841-1871 | `snd_una == write_seq` in 32 bits means that everything is acknowledged |
| TcpConn.ConnSock.Active | src/linux/net/newip/tcp_nip_output.c:589-622 | an actively opened socket satisfies the invariant |
| TcpConn.ConnSock.Passive | src/linux/net/newip/tcp_nip_input.c:871-979 | so does a child of a listener |
| TcpConn.ConnSock.MoveToClosing | src/linux/net/newip/tcp_nip.c:93-132 | the table step and its FIN on the 32-bit queue keep the invariant, so the FIN is the only one and last, and lead strictly forward |
| TcpConn.ConnSock.ShutdownSock | src/linux/net/newip/tcp_nip.c:148-161 | shutdown keeps the invariant and never leads back |
| TcpConn.ConnSock.CloseSock | src/linux/net/newip/tcp_nip.c:163-237 | close keeps the invariant and never leads back |
| TcpConn.ConnSock.TcpFin | src/linux/net/newip/tcp_nip_input.c:58-106 | the peer's FIN leaves a state whose name still says which sides have closed, and never leads back |
| TcpConn.ConnSock.TcpReset | src/linux/net/newip/tcp_nip_input.c:1448-1473 | a reset empties the queue and leads to CLOSE, with the invariant kept |
| TcpConn.ConnSock.TakeAck | src/linux/net/newip/tcp_nip_input.c:1386-1436 | an ACK on 32-bit numbers moves the queue as on offsets, leaves it ready to be pushed, and changes nothing when it is refused |
| TcpConn.ConnSock.RcvEstablishedSock | src/linux/net/newip/tcp_nip_input.c:1540-1563 | a segment in ESTABLISHED keeps the invariant and leads forward or nowhere |
| TcpConn.ConnSock.RcvSynSentSock | src/linux/net/newip/tcp_nip_input.c:1645-1745 | a segment in SYN_SENT likewise |
| TcpConn.ConnSock.SwitchOnAck | src/linux/net/newip/tcp_nip_input.c:1821-1877 | the first switch enters FIN_WAIT2, or ends LAST_ACK, exactly when everything is acknowledged, and says whether the segment is looked at further |
| TcpConn.ConnSock.SwitchOnData | src/linux/net/newip/tcp_nip_input.c:1879-1911 | the second switch, with its fall-throughs, leaves a connection that may be pushed, or a closed one |
| TcpConn.ConnSock.RcvStateProcessSock | src/linux/net/newip/tcp_nip_input.c:1756-1923 | the whole of `tcp_nip_rcv_state_process` keeps the invariant and leads forward or nowhere |
| TcpConn.ConnSock.ArriveSock | src/linux/net/newip/tcp_nip_input.c:1756-1923 | so does any segment in any state |
| TcpConn.Handle | src/linux/net/newip/tcp_nip_input.c:1756-1923 | any event on the 32-bit socket is the model's step, keeps the invariant and leads forward or nowhere |
| TcpConn.RunConn | src/linux/net/newip/tcp_nip.c:93-161 | over every run the 32-bit socket is where the model is; its rank pays for each state change; in FIN_WAIT2 `snd_una == write_seq` |
| Threshold.BlendBetween | src/linux/net/newip/tcp_nip_input.c:1353-1376 | the averaged threshold lies between its two inputs, whatever the step, as long as nothing overflows 32 bits |
| Threshold.BlendIsMean | src/linux/net/newip/tcp_nip_input.c:1362-1376 | it is the weighted mean of the two, rounded down |
| Threshold.TargetBounds | src/linux/net/newip/tcp_nip_input.c:1353-1360 | the middle band's target lies between half of mid_high and mid_high |
| Threshold.TargetIsLinear | src/linux/net/newip/tcp_nip_input.c:1353-1360 | it falls linearly with the round-trip time, rounded down, from twice half of mid_high |
| Threshold.WritersLeave | src/linux/net/newip/tcp_nip_input.c:1316-1352 | the value each writer leaves: low after a loss or in a new stretch of acknowledged bytes, the low minimum after an idle period, the band's constant after a slow ACK; an untimed ACK changes nothing |
| Threshold.RunStaysWithin | src/linux/net/newip/tcp_nip_input.c:1316-1384 | over every run of its writers the threshold stays between the low minimum (or half of mid_high, if less) and the high bound |
| Threshold.StartIsWithin | src/linux/net/newip/tcp_nip.c:791-805 | the initial threshold is in those bounds |
| Threshold.LowMinIff | src/linux/net/newip/tcp_nip_input.c:1316-1384 | the exact condition: no run from a threshold in range ever falls below the low minimum if and only if that minimum is at most the middle band's least target and, when the high bound exceeds mid_high, at most the mean the band restarts with |
| Threshold.LowMinMissed | src/linux/net/newip/tcp_nip_input.c:1353-1370 | when the condition fails, one ACK with the band's longest round trip is such a run |
| Threshold.RunKeepsLowMin | src/linux/net/newip/tcp_nip_input.c:1316-1384 | when it holds, the threshold stays between low minimum and high bound over every run |
| Threshold.HalfSuffices | src/linux/net/newip/tcp_nip_input.c:1353-1370 | a low minimum of at most half of mid_high meets the condition |
| Threshold.LowMinCanBeMissed | src/linux/net/newip/tcp_nip_input.c:1353-1370 | parameters in order that fail the condition, from whose start one ACK leads below the low minimum |
| Threshold.GapShrinks | src/linux/net/newip/tcp_nip_input.c:1371-1381 | an ACK in the lowest band never widens the gap to the high bound and narrows it exactly while it exceeds the step |
| Threshold.GapCloses | src/linux/net/newip/tcp_nip_input.c:1371-1381 | over every run of ACKs in that band without a reset, whatever their round trips, the gap never grows, and after as many as it is wide it is at most the step |
| Threshold.SlowerIsSmaller | src/linux/net/newip/tcp_nip_input.c:1316-1384 | a slower round trip never leads to a larger threshold, below mid_high and from mid_high on |
| Threshold.NipCommon.CalcSsthresh | src/linux/net/newip/tcp_nip_input.c:1316-1384 | an ACK leaves the threshold in bounds, and not below the low minimum when the parameters allow |
| Threshold.NipCommon.ByRttBand | src/linux/net/newip/tcp_nip_input.c:1331-1382 | the bands, in 32-bit arithmetic, likewise; in the lowest one the threshold does not fall |
| Threshold.NipCommon.HandleAll | src/linux/net/newip/tcp_nip_input.c:1316-1384 | over a whole run of writes the field ends where the run does, hence in bounds |
| NipAddr.NipAddrInvalid | src/common/nip_addr.c:305-334 | answers 0 exactly for the shortest code of a value, announced by bitlen, with zeros behind it |
| NipAddr.EncodeOfValue | src/common/nip_addr.c:148-242 | every short code stands for an integer below 2^48, and is that integer's code: one integer per code |
| NipAddr.ValueOfEncode | src/common/nip_addr.c:148-242 | every integer below 2^48 has a valid code that stands for it: one code per integer |
| NipAddr.ValueRange | src/common/nip_addr.c:62-118 | each length class holds its own interval of integers |
| NipAddr.LexIsNumeric | src/common/nip_addr.c:62-118 | on equal lengths byte order is numeric order |
| NipAddr.OrderPreserved | src/common/nip_addr.c:62-118 | the byte order of codes is the order of their integers, across all lengths |
| NipAddr.PrefixFree | src/common/nip_addr.c:369-388 | no valid code, of any class, is a proper prefix of another |
| NipAddr.BuildNipAddr | src/common/nip_addr.c:390-405 | writes exactly the address's bytes at the position, changes nothing around them, and fails exactly for a first byte without a length |
| NipAddr.AddrBuf.Decode | src/common/nip_addr.c:407-430 | leaves the bytes read over what the target held, and succeeds exactly when the result is valid |
| NipAddr.DecodeSucceeds | src/common/nip_addr.c:407-430 | a decode succeeds if and only if the bytes are a code and the rest of the target was zero |
| NipAddr.DecodeOfBuild | src/common/nip_addr.c:390-430 | decoding what was built from a valid whole-byte address into a zeroed target gives the address back |
| NipAddr.BuildOfDecode | src/common/nip_addr.c:390-430 | building what was decoded writes the bytes that were consumed |
| NipAddr.WholeBytesIff | src/common/nip_addr.c:390-430 | the exact condition: a valid address survives building and decoding if and only if its bitlen is a multiple of eight |
| NipAddr.OddBitlenIsLost | src/common/nip_addr.c:305-334 | a valid address of 9 bits comes back with 8 |
| Checksum.CheckSum | src/common/nip_checksum.c:36-50 | the loop sums the 16-bit words, an odd last byte as a high half, and never overflows 32 bits for any 16-bit length |
| Checksum.FillPseudo | src/common/nip_checksum.c:52-79 | the pseudo-header filled byte by byte is source, destination, length in network order and protocol, within 24 bytes |
| Checksum.PseudoLayout | src/common/nip_checksum.c:52-79 | the layout, byte by byte: source, destination, length with its high byte first, protocol |
| Checksum.HeaderChksum | src/common/nip_checksum.c:52-82 | its sum, far below 32 bits |
| Checksum.Fold | src/common/nip_checksum.c:94-98 | the fold loop terminates in the representative of 1..65535 congruent modulo 65535, or 0 for 0 |
| Checksum.FoldIsOnesSum | src/common/nip_checksum.c:36-101 | deferring the carries changes nothing: the folded sum is the end-around-carry sum word by word (section 1 of RFC 1071) |
| Checksum.Parse | src/common/nip_checksum.c:89-101 | answers the normal form of the sum over data and pseudo-header, without overflow |
| Checksum.Build | src/common/nip_checksum.c:108-120 | answers its one's complement |
| Checksum.BuildThenParse | src/common/nip_checksum.c:89-120 | what is built, written big-endian at any even zeroed offset, makes parse answer 0xffff, for both parities of the length |
| Checksum.OneWordIsNoticed | src/common/nip_checksum.c:89-101 | altering one aligned word of a good packet goes unnoticed if and only if it swaps 0x0000 and 0xffff and something else is left |
| NipHeader.HeaderLength | src/common/nip_hdr_encap.c:110-227 | the written header is even, at most the estimate of `get_nip_hdr_len` and at least one less, and the estimate is at most NIP_HDR_MAX |
| NipHeader.HdrEncap.UdpEncap | src/common/nip_hdr_encap.c:148-163 | the buffer holds exactly the UDP header and the position is its length |
| NipHeader.HdrEncap.CommEncap | src/common/nip_hdr_encap.c:166-182 | the buffer holds the common header but for the total length, whose place is remembered |
| NipHeader.HdrEncap.UpdateTotalLen | src/common/nip_hdr_encap.c:103-106 | writes the two bytes of the total length at the remembered place and nothing else |
| NipHeader.HeaderParts | src/common/nip_hdr_encap.c:110-227 | the layout of a written header: bitmaps, TTL, total length, protocol, destination, source |
| NipHeader.NipHdrParse | src/common/nip_hdr_decap.c:260-297 | the parser's loop over the bitmaps reads what the recursive reader reads |
| NipHeader.BitmapCodes | src/common/nip_hdr_decap.c:168-297 | which packets are turned away for their bitmaps, with which code: the invalid bit, more than eight bitmaps, no TTL, no protocol, no destination |
| NipHeader.ParseReads | src/common/nip_hdr_decap.c:168-297 | what a successful parse has read and where: each field is the one at its place behind the bitmaps, and the address codes are valid |
| NipHeader.ParseReturns | src/common/nip_hdr_decap.c:204-297 | what a successful parse returns: the header length if the packet has one, and then it covers all that was read; otherwise how much was read, and then no bit was unknown |
| NipHeader.OffsetInBuffer | src/common/nip_hdr_decap.c:260-297 | a successful parse has consumed less than the buffer; if the packet names its total length, the returned offset is inside the buffer too |
| NipHeader.OffsetBeyondIff | src/common/nip_hdr_decap.c:204-297 | the exact condition: the offset of a successful parse lies beyond the buffer if and only if the packet has no total length bit, a header length bit in its second bitmap byte, and a header length of at least the buffer's |
| NipHeader.OffsetCanExceedBuffer | src/common/nip_hdr_decap.c:204-254 | a packet of eight bytes for which the parser answers 200 |
| NipHeader.RoundTrip | src/common/nip_hdr_decap.c:168-297 | parsing a written header with at least one byte behind it returns its length and every field, the total length of common headers included |
| UdpSplit.ChunksJoin | src/common/nip_hdr_encap.c:37-59 | the pieces concatenate to the message |
| UdpSplit.ChunkLengths | src/common/nip_hdr_encap.c:37-59 | all pieces but the last are equal, none is longer, and only an empty message has an empty piece, its only one |
| UdpSplit.FragNumIsChunks | src/common/nip_hdr_encap.c:37-59 | `nip_calc_pkt_frag_num` answers the number and lengths of those pieces; the piece length is the largest multiple of 8 that fits the MTU |
| UdpSplit.SingleOutput | src/linux/net/newip/nip_output.c:160-230 | one packet: header, UDP header with length and checksum, and the piece; the rest of the message is left |
| UdpSplit.SendLoop | src/linux/net/newip/nip_output.c:232-272 | the send loop emits the packets of the pieces in order |
| UdpSplit.UdpOutput | src/linux/net/newip/nip_output.c:232-272 | for every MTU of at least the header estimate plus 16 and every length, exactly those packets |
| UdpSplit.PacketFits | src/linux/net/newip/nip_output.c:160-272 | each fits the MTU with its actual header |
| UdpSplit.PacketParses | src/linux/net/newip/nip_output.c:160-230 | the header parser finds every field in front of each packet |
| UdpSplit.DatagramChecks | src/linux/net/newip/nip_output.c:116-230 | each datagram whose length fits 16 bits passes the receiver's checksum |
| UdpReceive.NipRcv | src/linux/net/newip/nip_input.c:81-126 | `nip_rcv` and `nip_udp_input`, with the parser's and the checksum's loops, answer what the reference does |
| UdpReceive.UdpHdrReads | src/common/nip_hdr.h:246-256 | the layout of the UDP header: source port, destination port, length, checksum, high byte first |
| UdpReceive.DatagramArrives | src/linux/net/newip/udp.c:273-320 | a datagram whose length fits 16 bits arrives as it was sent: both addresses, both ports, and the payload, whatever lies behind it in memory |
| UdpReceive.CommonArrives | src/linux/net/newip/nip_input.c:97-126 | a packet with a common header goes to the protocol it names, unless that is none of the three or it says it is longer than what arrived |
| UdpReceive.MessageArrives | src/linux/net/newip/nip_output.c:232-272 | end to end: of every message, over every MTU, the receiver makes one datagram for each piece, from the sender's address and port, and their payloads in order are the message |
| Fib.EqualAddrs | src/linux/include/net/nip.h:62-87 | equal addresses hash to the same bucket, and equality is symmetric and transitive |
| Fib.ValidEqual | src/linux/include/net/nip.h:69-74 | valid addresses of at most 64 bits are equal if and only if they are the same; longer ones equal nothing, themselves included |
| Fib.XorBits | src/linux/include/net/nip.h:76-87 | the exclusive or of the hash is one, bit by bit |
| Fib.ShortHash | src/linux/include/net/nip.h:76-87 | an address of at most four bytes goes to the bucket its first word names |
| Fib.HashOfFive | src/linux/include/net/nip.h:76-87 | the one-byte address 5 goes to bucket 14 |
| Fib.LocateMeaning | src/linux/net/newip/nip_fib.c:78-103 | a lookup returns the earliest-added entry of the address; without one the earliest default route; nothing only if there is neither |
| Fib.LocateMain | src/linux/net/newip/nip_fib.c:78-103 | in MAIN the entry is unique, so the table is a map with a default |
| Fib.AddLookup | src/linux/net/newip/nip_fib.c:106-158 | an addition changes the lookup of its own destination if that had no entry, of addresses without an entry if it is the first default, and of nothing else |
| Fib.AppendedDistinct | src/linux/net/newip/nip_fib.c:106-158 | an addition past the duplicate test keeps entries unique |
| Fib.CleanedMeaning | src/linux/net/newip/nip_fib.c:196-228 | cleaning removes exactly the selected entries, keeps the order of the rest, and uniqueness |
| Fib.LocateByMembers | src/linux/net/newip/nip_fib.c:78-103 | a lookup depends only on which entries exist for the address and the default |
| Fib.DeleteLookup | src/linux/net/newip/nip_fib.c:169-188 | deleting an entry that is no default route changes no other address's lookup |
| Fib.DeleteTarget | src/linux/net/newip/route.c:565-589 | the delete path hits an entry of the address itself if and only if there is one; otherwise it takes the default route |
| Fib.DefaultIsDeleted | src/linux/net/newip/route.c:565-589 | a table in which a request to delete the route of an address without one deletes the default route |
| Fib.FibTable.FibLocate | src/linux/net/newip/nip_fib.c:78-103 | the two search loops return the lookup |
| Fib.FibTable.FibAdd | src/linux/net/newip/nip_fib.c:106-158 | refuses exactly a duplicate, without changing the table; otherwise the route is the newest of its bucket; the table stays well placed and unique |
| Fib.FibTable.FibDel | src/linux/net/newip/nip_fib.c:169-188 | removes the route and nothing else |
| Fib.FibTable.CleanHash | src/linux/net/newip/nip_fib.c:196-228 | every bucket without exactly the selected routes |
| Fib.FibTable.RouteDel | src/linux/net/newip/route.c:565-589 | removes what the lookup returns, and fails without a change if it returns nothing |
| Fib.RuleLookup | src/linux/net/newip/nip_fib_rules.c:18-39 | LOCAL, then MAIN, then the null entry |
| Fib.RuleMeaning | src/linux/net/newip/nip_fib_rules.c:18-39 | as long as LOCAL has no default route it answers exactly for its own entries, and MAIN for the rest with its entry or its default; the null entry exactly when no entry and no default exists |
| AddrConf.AddKeeps | src/linux/net/newip/nip_addrconf.c:80-184 | an added address is added to the hash table, its device's list and LOCAL alike; no duplicate is met in LOCAL |
| AddrConf.VerdictMeans | src/linux/net/newip/nip_addrconf.c:227-308 | when a request is granted and what every refusal means: granted if and only if the address is valid and not public, the device exists, is or can be attached, is enabled and running, and has no equal address in its own list |
| AddrConf.RequestKeeps | src/linux/net/newip/nip_addrconf.c:259-308 | every request for an address keeps the agreement, and adds the address to all three views exactly when it is granted |
| AddrConf.DeleteKeeps | src/linux/net/newip/nip_addrconf.c:321-356 | a deleted address leaves all three and nothing else does |
| AddrConf.DeleteMeans | src/linux/net/newip/nip_addrconf.c:321-391 | a deletion succeeds if and only if the device has the address; what goes is that address and no other, and it can then be configured again |
| AddrConf.DownAgreesIff | src/linux/net/newip/nip_addrconf.c:610-692 | the exact condition: after a device goes down the three views agree if and only if it unregisters, or does not ignore its link going down (nothing in the repository sets that flag), or had no address; it stays attached unless it unregisters |
| AddrConf.SteppedKeeps | src/linux/net/newip/nip_addrconf.c:80-391 | each operation that drops a downed device's routes keeps the agreement |
| AddrConf.RunAgrees | src/linux/net/newip/nip_addrconf.c:80-692 | over every run in which the routes of a device go down with it the three views describe the same addresses after each operation |
| AddrConf.DefaultRunAgrees | src/linux/net/newip/nip_addrconf.c:57-62 | with the default settings, which nothing changes, that premise always holds: the views agree over every run |
| AddrConf.BindIff | src/linux/net/newip/route.c:381-407 | LOCAL never holds 0xFF09, and bind succeeds exactly for the any-address and configured addresses |
| AddrConf.NetConf.ChkSameAddr | src/linux/net/newip/nip_addrconf.c:453-468 | the walk over a hash chain finds an equal address on the device if and only if there is one |
| AddrConf.NetConf.FindIdev | src/linux/net/newip/nip_addrconf.c:227-240 | a device without a ninet_dev gets one if its MTU allows; the agreement is kept |
| AddrConf.NetConf.AddIfaddr | src/linux/net/newip/nip_addrconf.c:227-308 | the verdict in the source's order of tests; on success the address is in all three views; a refused request leaves at most a new, empty ninet_dev |
| AddrConf.NetConf.DelIfaddr | src/linux/net/newip/nip_addrconf.c:358-391 | takes the first equal address of the device out of all three views, or fails and changes nothing |
| AddrConf.NetConf.Ifdown | src/linux/net/newip/nip_addrconf.c:610-692 | what a device going down takes out of each view |
| RouteRefs.ChangeKeeps | src/linux/net/newip/route.c:111-245 | a change to one route keeps the whole ledger when its own count and its devices' counts follow |
| RouteRefs.PutKeeps | src/linux/net/newip/route.c:631-651 | a release, with the destruction and the further releases it sets off, keeps the ledger |
| RouteRefs.PutLeaves | src/linux/net/newip/route.c:631-651 | a release takes one reference; the last one frees the route and takes the reference off the route it is a copy of, which may free that too; nothing else changes |
| RouteRefs.MakePcpuKeeps | src/linux/net/newip/route.c:201-245 | a lookup's per-CPU copy, whether it wins the slot, loses it or finds the slots gone, keeps the ledger |
| RouteRefs.LookLeaves | src/linux/net/newip/route.c:343-378 | a lookup's hit and its first step hold what they found, and the release undoes it |
| RouteRefs.LookFinishLeaves | src/linux/net/newip/route.c:215-245 | what the looker holds in place of the route: the new copy, now in this CPU's slot; the copy that was there already; or, without slots, the route itself |
| RouteRefs.CopyUndone | src/linux/net/newip/route.c:215-245 | destroying a copy that lost the race leaves everything as it was |
| RouteRefs.FreePcpuKeeps | src/linux/net/newip/nip_fib.c:49-71 | freeing the slots leaves no copy in any slot and keeps the ledger |
| RouteRefs.RcuCallbackKeeps | src/linux/net/newip/nip_fib.c:160-166 | the deferred callback, which cuts the cycle between a route and its copies, keeps the ledger |
| RouteRefs.RcuLeaves | src/linux/net/newip/nip_fib.c:49-71 | the callback frees the route if and only if no address owns it and nobody holds it or a copy of it; of its copies just those that are held stay, out of their slots; what stays names loopback if that is up |
| RouteRefs.MoveIdevKeeps | src/linux/net/newip/route.c:716-732 | moving a dying route's device reference to loopback keeps both devices' counts |
| RouteRefs.AddrAddKeeps | src/linux/net/newip/nip_addrconf.c:80-184 | an address holds its device and its route, the table holds the route too, or a duplicate's reference is dropped |
| RouteRefs.RouteAddKeeps | src/linux/net/newip/route.c:409-534 | a new route's first reference becomes the table's, or is dropped for a duplicate |
| RouteRefs.AddRouteLeaves | src/linux/net/newip/route.c:518-534 | a new route is afterwards in the table, with no other reference, and counted by its device; a duplicate leaves everything as it was |
| RouteRefs.AddAddrLeaves | src/linux/net/newip/nip_addrconf.c:80-184 | the new address owns its route and holds its device; the table holds the route if and only if it is no duplicate |
| RouteRefs.DelRtKeeps | src/linux/net/newip/route.c:536-555 | hold, unlink and put keep the ledger and the address's own reference |
| RouteRefs.DelRouteLeaves | src/linux/net/newip/route.c:536-555 | a deleted route is out of the table and waits for the callback with the reference the table had |
| RouteRefs.DelAddrLeaves | src/linux/net/newip/nip_addrconf.c:321-356 | a deleted address gives up its reference and takes its route out of the table; the route stays exactly while something else refers to it |
| RouteRefs.UnregisterKeeps | src/linux/net/newip/nip_addrconf.c:610-692 | a device that goes away gives up exactly its registration's reference |
| RouteRefs.DevsLeave | src/linux/net/newip/nip_addrconf.c:610-692 | a device that goes away stays exactly as long as a route or an address names it, unregistered |
| RouteRefs.StepKeeps | src/linux/net/newip/route.c:343-589 | every operation keeps the ledger |
| RouteRefs.RunKeeps | src/linux/net/newip/route.c:343-589 | over every run each route's count equals table membership plus address ownership plus slot plus copies pointing back plus holders, each device's count equals registration plus addresses plus routes naming it, and nothing referred to has been freed |
| RouteRefs.AllFreed | src/linux/net/newip/route.c:631-651 | after teardown nothing is left: no route, copy or device |
| RouteRefs.RouteNet.DstHold | src/linux/include/net/nip_fib.h:120-123 | a hold adds one to the count and one holder |
| RouteRefs.RouteNet.DstRelease | src/linux/net/newip/route.c:631-651 | the release loop, down to the parent of a last copy, leaves the model's state |
| RouteRefs.RouteNet.NipFibDel | src/linux/net/newip/nip_fib.c:169-188 | unlinking leaves the table's reference to the callback; a route in no table is left alone |
| RouteRefs.RouteNet.NipFibAdd | src/linux/net/newip/nip_fib.c:106-158 | the caller's reference becomes the table's or is dropped: afterwards the route is in the table if and only if it is no duplicate |
| RouteRefs.RouteNet.NipRouteAdd | src/linux/net/newip/route.c:518-534 | creation and insertion leave the model's state and keep the ledger |
| RouteRefs.RouteNet.NipDelRt | src/linux/net/newip/route.c:536-555 | hold, unlink and put leave the model's state and keep the ledger |
| Ring.TestsAreExact | src/linux/drivers/net/bt/btdev.c:700-710 | the ring is full exactly at size - 1 items and empty exactly at none |
| Ring.StoreOverwritesNothing | src/linux/drivers/net/bt/btdev.c:712-721 | the slot write hits no item that is still to be read |
| Ring.StepKeeps | src/linux/drivers/net/bt/btdev.c:700-763 | each atomic step of either side keeps the invariant |
| Ring.FreshInv | src/linux/drivers/net/bt/btdev.c:670-698 | a fresh ring satisfies the invariant |
| Ring.RunIsFifo | src/linux/drivers/net/bt/btdev.c:129-171 | under every interleaving what came out is a prefix of what went in, no unread item is damaged, at most size - 1 are held, and for the driver's size the packet count is right |
| Ring.FifoFromStart | src/linux/drivers/net/bt/btdev.c:129-171 | the same from a fresh ring on |
| Ring.IndexDistance | src/linux/drivers/net/bt/btdev.h:219-229 | the wrapped index distance is the number of items held |
| Ring.PacketsOnlyForThatSize | src/linux/drivers/net/bt/btdev.h:219-229 | once the indices have wrapped the count is right for no other ring size |
| Ring.BtRing.constructor | src/linux/drivers/net/bt/btdev.c:670-698 | a fresh ring is empty |
| Ring.BtRing.Produce | src/linux/drivers/net/bt/btdev.c:748-763 | refuses exactly when size - 1 items are held, otherwise appends the item |
| Ring.BtRing.Take | src/linux/drivers/net/bt/btdev.c:723-739 | returns exactly the oldest item, if there is one |
| Ring.BtRing.Packets | src/linux/drivers/net/bt/btdev.h:219-229 | answers the number of items held |

## Left out

Weaker than the source, on purpose:

- Protocol.EndToEnd: data flows one way and carries no FIN; the other direction is the same code and appears only as ACKs with arbitrary sequence numbers. The connection starts after the handshake.
- Endpoints.Connection: the same, with pushes that have budget for a packet and packets delayed by less than half the number space.
- OutOfOrder.InsertKeepsSorted: arrivals whose trims are defined; what the kernel does with a negative length is not modelled.
- OutOfOrder.InsertCarries: arrivals whose trims are defined, as above.
- OutOfOrder.InsertWithin: arrivals whose trims are defined, as above.
- Receive.DataQueueCarries: arrivals whose trims are defined, as above.
- ReceiveRun.RunSocket: the offered edge stays within 2^31 less 2^16 of `rcv_nxt`.
- Protocol.FrontIsDeliverable: says that progress is possible, not that a timer brings it about.
- Completion.NoRunIsStuck: likewise; the steps that complete a run exist, and which timers bring them about is not modelled.
- UdpReceive.NipRcv: where the code would read past the memory at hand, or take a UDP length of less than its header, the model answers `Beyond`.
- SendRun.RunKeeps: pushes are assumed to have budget for a packet; `SendRun.BudgetIsPositive` and `SendQueue.ProbeKeepsIff` say exactly when that matters.
- SendQueue.XmitKeeps: the MSS is constant and no packet exceeds it, so the branch of `tcp_nip_clean_rtx_queue` for a partly acknowledged packet of several segments is modelled but never taken.
- SendQueue.RetransmitKeeps: packets longer than one MSS, which would be fragmented again, do not occur.
- TcpSender.Sock.WriteWakeup: for a head that has been counted; the other case is `SendQueue.UncountedProbeLosesAck`.
- TcpReceiver.TcpSock.DataQueue: arrivals lie within 2^31 of `rcv_nxt`, the offered edge within 2^31 less 2^16, and the trims an arrival calls for are defined; `TcpReceiver.TrimUnderflowsIff` says when they are not.
- TcpReceiver.TcpSock.RecvMsg: returns at the end of the queue; waiting for data, MSG_PEEK, MSG_TRUNC and copy faults are not modelled.
- Receive.DataQueueKeeps: payload only; a FIN that arrives with data or out of order is not part of the reassembly model (its effect on the connection state is in `CloseProtocol`).
- CloseProtocol.StateProcessKeeps: what the receive path makes of a segment (valid, resets, delivers a FIN) is an input, not computed.
- CloseProtocol.StepKeeps: an ACK in SYN_RECV names no more than was sent; `CloseProtocol.ThirdAckIff` and `CloseProtocol.SecondSegmentIff` show this is exactly what is needed.
- Threshold.RunStaysWithin: parameters are ordered and no product overflows 32 bits.
- Threshold.LowMinIff: about runs from any threshold in range, not only from those that some run reaches.
- TcpConn.RunConn: the write queue and the window span at most 2^30 each, and numbers in arriving segments lie within half the number space.
- NipHeader.NipHdrParse: 29 bytes are readable behind the buffer whatever its length says, as the code reads each field before it checks the length.
- NipHeader.HeaderLength: both addresses are given; the early returns of `get_nip_hdr_len` for absent addresses are not modelled.
- UdpSplit.UdpOutput: every packet is accepted by the device; the loop's early exit on an error is not modelled.
- Checksum.BuildThenParse: addresses of at most 64 bits and lengths of at most 16 bits, as the headers carry them.
- Fib.EqualAddrs: addresses longer than 64 bits are never equal and are hashed by their first eight bytes.
- Fib.FibTable.FibDel: the route is in the table; a route in no table is `RouteRefs.RouteNet.NipFibDel`.
- Fib.RuleLookup: the reference puts and holds around the lookups, which `RouteRefs` counts, and the answered table type are not modelled.
- Fib.DeleteLookup: the deleted entry is not a default route.
- AddrConf.RunAgrees: devices drop their routes when they go down, which by `AddrConf.DefaultRunAgrees` they do.
- AddrConf.NetConf.Ifdown: only the LOCAL table; the routes of MAIN over the device, address states and lifetimes are not modelled.
- RouteRefs.MakePcpuKeeps: lookups with per-CPU copies, address operations and the RCU callback are proved on values, because they span several objects; holds, releases, insertion and deletion are also methods of `RouteRefs.RouteNet`.
- RouteRefs.RunKeeps: the null and broadcast entries, which are never freed, and the `net_device` references are not counted.
- Ring.RunIsFifo: the empty test, the fetch and the release are single atomic steps; memory ordering between them is taken for granted.

Not modelled:

- skb memory layout, truesize and socket memory accounting, except as one arbitrary "over its limit" flag on out-of-order arrivals; allocation failures.
- Locks, RCU grace periods and barriers beyond the atomicity of steps.
- The internals of `skb_try_coalesce`, `tcp_fragment`, `tcp_trim_head`, `sk_eat_skb` and the red-black tree's rebalancing; they appear by their effect.
- Selective-retransmission bookkeeping (`tcp_nip_ack_retrans`): any sent packet may be sent again at any time.
- Timers, backoff and keepalive, except as steps that may happen; ISN generation; TCP options.
- Listening sockets, the handshake queues and accept; disconnect and reuse of a socket.
- Socket hash tables, the lookup of the receiving socket and its scoring.
- ICMP, neighbours, the Bluetooth device table and its bitmap, proc files, ioctl and socket options; module parameters are constants.
