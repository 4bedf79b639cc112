# A user-space TCP stack: its data path and its data structures

This project models the TCP data path of a user-space stack and the structures it relies on, and proves what they are
for. The model follows the C code branch by branch; objects the code updates in place are classes, loops are loops, and
ghost fields carry the unbounded positions behind 32-bit numbers. `dafny verify dfyconfig.toml` checks everything.

## What is modelled, and what is proved about it

**Sequence numbers** (`SeqArith.dfy`). The modular comparisons agree with the order of unbounded positions exactly as
far as half the number space reaches.

**Receiving** (`Fragments.dfy`, `ReceiveBuffer.dfy`, `ReceivePath.dfy`). The fragment list after every insertion is the
one sorted, disjoint, non-touching list of what was accepted and not yet read; the buffer is a map from stream positions
to bytes; whatever the order, overlap and repetition of segments and however reads are interleaved, the user gets a
prefix of the peer's stream, each byte once. With the additive head offset this holds of every run. With the line in
force (`head_offset = len`) it holds of every run in which each read found the offset at 0 or took the whole of the only
fragment: the history `misread` records whether one did not. `RemoveAsWrittenIff` shows that no weaker condition on a
read will do, and `AsWrittenRepeatsAByte` is a run in which one fails it. The flag `additive` of `RingBuffer` selects
the line.

**Sending** (`SendBuffers.dfy`, `SendPath.dfy`). Every data segment ever emitted carries the bytes the application wrote
at its position, under that position's number and inside the window, through compaction, acknowledgement, fast
retransmission and timeout; every FIN has the number after the last byte. How far one flush gets is a function of
positions (`Plan`) that the loop is proved to compute, and lemmas say where and why it stops. What each operation does to
the send variables, the lists and the timer is a function of their values before it (`SendState`), and `Advances` says
what an acknowledgement can do and what it cannot.

**A connection** (`Connection.dfy`). All events a connection can meet, in any order and number: segments, the
application, the write loops, the timers. The class is proved to take, event by event, the steps of a machine over
unbounded positions: every flag, counter, send and receive variable after the event is given by those before it (`View`,
`Did`). The machine keeps what `Phase` says of each state. `Connection.Run` returns the states a run passes through and
collects what holds of every run; `DataIsAcknowledged` and `SilenceEnds` are laws of the machine and so of every run.
Which segments consume the peer's FIN, and where they lead, is decided on the state before the segment (`BringsFin`,
`AcksFin`), and so is which segments end the model's run (`Stops`). The receive history that fidelity is about has an
entry for a segment only if that segment arrived, at a position that carries its number.

**The red-black tree** (`RbShape.dfy`, `RbTree.dfy`). Insertion, removal, both colour fixups, rotations, search and
extremes, on heap nodes with parent pointers. The in-order sequence gains or loses exactly one node, the tree stays
sorted and balanced, links stay consistent, and the loops end. Positions in the tree are pairs of a subtree and its
context, so that a statement about one branch of a loop is also the statement about its mirror image.

**Concurrent and intrusive bookkeeping**: the lock-free queue under every interleaving of its two threads
(`SpscRing.dfy`), the six kinds of lists a stream can be on with their flags and counters, the write loops and the
timers (`StreamLists.dfy`), the three-queue event pipeline (`EpollQueues.dfy`), and the tree-based epoll
(`EventPoll.dfy`). Runs of each return the states passed through, every step of which is the effect of its operation.

**Structures that must agree with something simple**: the chunk allocator (`Mempool.dfy`), the software RSS hash
(`Rss.dfy`) and the address pools that depend on its symmetry (`AddressPool.dfy`), the checksum (`Checksum.dfy`) and the
option codec (`Options.dfy`). `Lists.dfy`, `RingIndex.dfy` and `Wrappers.dfy` hold what several of them share.

## Where the code and its evident intent differ

The model follows the code. Each difference below is either a proved condition or a remark.

- `src/nty_buffer.c:646` sets `head_offset` where line 644, compiled out, adds to it: `RemoveAsWrittenIff` gives the exact
  condition under which the bytes that stay are still read from the right place, and whole runs that meet it deliver the
  peer's stream. What is thrown away after our close may be misplaced as well, but nobody reads it.
- `src/nty_stream.c:286` starts `rcv_wnd` at 14600 although the buffer has 8192 bytes. The right edge of the window is
  therefore drawn back by the first segment processed: `ProcessPayload` states the exact change, and that from then on
  the edge never goes back; `EdgeRetreats` is a first segment that draws it back from 14600 to 8192.
- `src/nty_tcp.c:1140` stores a duration, 0, where the state TIME_WAIT is meant, and 0 is CLOSED: `HandleFinWait1` says
  for exactly which segments, and `TimeWaitSkipped` is a run that ends without TIME_WAIT.
- `nty_tcp_flush_sendbuffer` subtracts each segment from its window and compares the rest with everything in flight, so
  with data left it fails at about half of the window: `PlanStops`, `HalfWindow`, `HalfWindowWasted`.
- A flush that uses up the window exactly succeeds with data left and takes the stream off the send list; a FIN may then
  go out before that data, under the right number (`FinOvertakesData`). The rest waits for a retransmission timeout.
- The early return of `nty_tcp_process_ack` at `src/nty_tcp.c:1554` keeps a lock. It is reachable exactly for an
  acknowledgement 2^31 before the head of the (then empty) send buffer: `ProcessAck`, result `stuck`, and `GetsStuck`.
- `nty_tcp_process` overwrites `peer_wnd` (1634-1638) before the duplicate test compares window edges computed from it, so
  an acknowledgement counts as a duplicate only while the peer's sequence number equals an acknowledgement number of ours:
  `DuplicateNeeds`. Outside that coincidence fast retransmission does not happen.
- When it does, a duplicate acknowledgement older than the buffer's head moves `snd_nxt` before it, which the assertion at
  2104-2111 then rejects: `ProcessAck`, result `astray`, gives the exact condition, `GoesAstray` a run; the model of a
  connection stops there.
- `src/nty_tcp.c:1522` tests for a partial packet that integer division never leaves: `NoPartialPacket`.
- `exit(1)` on a wrong acknowledgement of the SYN (913), a SYN on an established connection (974-983) and an
  acknowledgement that leads `snd_nxt` astray end the model's run, and nothing else does: the field `halted`, `Stops` and
  `StoppedBy`. The assertion in `HandleRTO` (`src/nty_timer.c:308`) never fails, as no stream in CLOSED, FIN_WAIT_2 or
  TIME_WAIT is armed.
- `src/nty_epoll_rb.c:206-214` frees an item without taking it off the ready list: `Del` says the list stays sound exactly
  if the item was not ready, and `DeleteWhileReady` is a run in which it was. An event that makes an item ready is not
  added to its mask (352-363), so the mask delivered is the one registered, plus what arrived while it was ready.
- `nty_epoll_ctl` with MOD on an unregistered socket returns with the lock taken (`src/nty_epoll.c:407-413`); locks are
  not modelled.
- `nty_tcp_parse_timestamp` advances twice per option (`src/nty_tcp.c:415-416`), so each option before the timestamp
  swallows the byte after it. The scan comes to a timestamp behind options followed by a NOP each (`ScanFinds`), which
  covers the layout this stack generates, and passes by it behind one option more (`ScanSkips`). It may then miss it,
  return something else, or be right by coincidence (`OddNopHides`, `OddNopMisreads`, `OddNopCoincides`), so that the exact
  condition (`ScanFindsIff`) is on the position at which the scan stops.
- `nty_tcp_parse_options` stands still on an option of an unknown kind with length 0: `ParseEndsIff`.
- `AddtoRTOList` does not look at the time-wait flag although both lists use the same link: `AddToRto` says membership
  stays exclusive exactly if the stream is not on the time-wait list. `Connection.Run` proves that no event of a
  connection arms a stream that is; for the lists by themselves this is a condition of the run (`Timely`).
- The slots of the retransmission wheel are taken modulo 3000, which does not divide 2^32: across the wrap of the clock two
  deadlines 2296 ticks apart share a slot (`SlotsApart`).
- `FreeAddress` does not look whether the entry is in use: `Release` says that the counters stay right exactly if it is not
  free.
- `nty_mempool_create` rounds the number of chunks up, so the last chunk reaches past the memory unless the chunk size
  divides the size; its callers pass multiples.

## Model

| member | source | states |
|---|---|---|
| SeqArith.AntipodesAreUnordered | include/nty_tcp.h:118-122 | at a distance of exactly 2^31 each number counts as before the other, so the order ends there |
| Fragments.CanMergeIffTouching | src/nty_buffer.c:513-522 | CanMerge holds exactly if the two fragments overlap or touch |
| Fragments.MergeIsUnion | src/nty_buffer.c:524-533 | merging covers what the two covered and nothing else |
| Fragments.CanonicalIsUnique | src/nty_buffer.c:581-629 | a sorted, disjoint, non-touching list is determined by the numbers it covers |
| Fragments.InsertFragment | src/nty_buffer.c:581-625 | the list stays sorted, disjoint and non-touching, and covers the old numbers and the new fragment's |
| Fragments.InsertAlone | src/nty_buffer.c:610-625 | a fragment that merges with none is linked in its place; the assertion at 620 holds |
| ReceiveBuffer.FrontRun | src/nty_buffer.c:626-629 | the merged length counts exactly the bytes that can be read: all there, the next one missing |
| ReceiveBuffer.RingBuffer.Put | src/nty_buffer.c:535-632 | RBPut's verdict in all cases, and the stream bytes afterwards: the old ones overwritten by the accepted payload |
| ReceiveBuffer.RingBuffer.Remove | src/nty_buffer.c:634-671 | a read takes the first bytes of the run and keeps the others, unless the line in force misplaces them: with an offset other than 0 and something left |
| ReceiveBuffer.RingBuffer.UnlinkFront | src/nty_buffer.c:655-668 | the first fragment shrinks or goes; the assertion at 667 is never reached |
| ReceiveBuffer.RemoveAsWrittenIff | src/nty_buffer.c:643-652 | the assignment of line 646 keeps every remaining byte, whatever the bytes, exactly if the offset was 0 or the whole of the only fragment is taken |
| ReceiveBuffer.AsWrittenRepeatsAByte | src/nty_buffer.c:634-671 | a run of one put and three reads that hands out a byte twice |
| ReceivePath.StepKeepsFaithful | src/nty_tcp.c:1268-1352 | no arrival or read breaks agreement with the peer's stream, and what was delivered stays delivered |
| ReceivePath.RunDeliversPrefix | src/nty_api.c:87-125 | the machine the code is compared with: over any run the user has been handed a prefix of the peer's stream, each byte once and in order |
| ReceivePath.Receiver.ProcessPayload | src/nty_tcp.c:1268-1352 | in or out of the window, the exact effect on the stream, the acknowledgement, whether the segment completes what was received, and the right edge, which never goes back once data was processed |
| ReceivePath.EdgeRetreats | src/nty_tcp.c:1315-1321 | one byte draws the right edge back from 14600 to 8192 |
| ReceivePath.Receiver.CopyToUser | src/nty_api.c:87-125 | the user gets the first readable bytes, the window opens by as much, and a closed window is announced again |
| ReceivePath.Receiver.DeliveredIsPrefix | src/nty_buffer.c:643-647 | with either line, if no read misplaced what was left, the bytes the code delivered are a prefix of the peer's stream |
| SendBuffers.SendBuffer.Put | src/nty_buffer.c:130-159 | SBPut appends what fits, across compaction, and reports a full buffer |
| SendBuffers.SendBuffer.Remove | src/nty_buffer.c:161-185 | SBRemove drops the front, and the head's sequence number follows |
| SendPath.Sender.CopyFromUser | src/nty_api.c:127-164 | exactly what fits the send window is accepted and queued; the assertion at 149 holds |
| SendPath.Sender.SendData | src/nty_tcp.c:501-615 | the segment put on the wire, snd_nxt and the timer, and the error cases |
| SendPath.Sender.Flush | src/nty_tcp.c:2072-2166 | consecutive right segments from snd_nxt on, within the window; how many and with which result is given by a plan over stream positions; the assertion at 2104-2111 holds |
| SendPath.PlanStops | src/nty_tcp.c:2100-2160 | exactly why a flush leaves data behind, for each of its results |
| SendPath.HalfWindow | src/nty_tcp.c:2136-2158 | a flush sends at most half of what the window and one segment come to, because what it sent is counted twice |
| SendPath.HalfWindowWasted | src/nty_tcp.c:2136-2158 | 1448 of 5000 bytes go out into an open window of 2000, and the flush fails |
| SendPath.Sender.AckFacts | src/nty_tcp.c:1410-1427 | what the code's tests on an acceptable acknowledgement mean as positions |
| SendPath.Sender.DuplicateNeeds | src/nty_tcp.c:1409-1462 | as nty_tcp_process calls it, an acknowledgement counts as a duplicate exactly if, besides, the peer's sequence number equals an acknowledgement number of ours |
| SendPath.Sender.ProcessAck | src/nty_tcp.c:1398-1569 | the effect of an acknowledgement on every send variable, the window, the duplicate count, the send list and the timer, and exactly when it leaves them out of order or takes the early return |
| SendPath.Sender.ProcessedAdvances | src/nty_tcp.c:1398-1569 | no acknowledgement moves the buffer's head back or past what was written, separates snd_una from it, changes data or FIN, stops the timer or resets the count of retransmissions without acknowledging something; that of the FIN acknowledges all data |
| SendPath.GoesAstray | src/nty_tcp.c:1469-1481 | a run of four old acknowledgements that moves snd_nxt before the buffer's head |
| SendPath.GetsStuck | src/nty_tcp.c:1550-1556 | a run that takes the early return |
| SendPath.Sender.TakeAck | src/nty_tcp.c:1398-1569 | snd_una stays at the buffer's head; the acknowledgement of the FIN empties the buffer |
| SendPath.Sender.SetFss | src/nty_tcp.c:1945-1949 | the FIN's number is that of the position after all data |
| SendPath.Sender.SendFin | src/nty_tcp.c:545-552 | a FIN goes out under the number fss |
| SendPath.Sender.Rollback | src/nty_timer.c:249-312 | snd_nxt falls back to snd_una, the threshold to half the window but at least two segments, the window to one |
| Connection.Connection.TakePayload | src/nty_tcp.c:985-991 | the exact effect of a payload on the received stream, and the acknowledgement it is owed |
| Connection.Connection.HandleEstablished | src/nty_tcp.c:970-1026 | the peer's FIN is consumed exactly if the segment completes what was received, and then the state is CLOSE_WAIT; how far an acknowledgement reaches, and which segments end the run |
| Connection.Connection.HandleCloseWait | src/nty_tcp.c:1028-1043 | an old segment changes nothing; another acknowledges exactly what its number says, or ends the run |
| Connection.Connection.HandleLastAck | src/nty_tcp.c:1045-1085 | the connection ends exactly on the acknowledgement of our FIN |
| Connection.Connection.HandleFinWait1 | src/nty_tcp.c:1087-1150 | the four outcomes, each exactly for the segments that acknowledge our FIN and bring the peer's; both at once lead to CLOSED |
| Connection.Connection.HandleFinWait2 | src/nty_tcp.c:1152-1183 | TIME_WAIT exactly for the segments that bring the peer's FIN in order; how far an acknowledgement reaches, and which segments end the run |
| Connection.Connection.HandleClosing | src/nty_tcp.c:1185-1215 | TIME_WAIT exactly on the acknowledgement of our FIN |
| Connection.Connection.HandleSynRcvd | src/nty_tcp.c:903-968 | ESTABLISHED exactly on the acknowledgement of our SYN when the accept queue has room |
| Connection.Connection.ValidSeq | src/nty_tcp.c:693-745 | which segments may be processed |
| Connection.Connection.HandleRst | src/nty_tcp.c:1354-1395 | what a reset does in each state |
| Connection.Connection.Arrive | src/nty_tcp.c:1622-1717 | which segments move the state, consume the peer's FIN, acknowledge data or end the run, decided on the old state; what is entered into the receive history; nothing is sent or delivered, and the receive window never moves back; every other flag, counter and variable as the machine has it |
| Connection.Connection.DataIsAcknowledged | src/nty_tcp.c:985-991 | in each state that takes data the stream is on the ack list after it, with one acknowledgement more, or with at least one if the data extended what can be read, and another for a FIN out of order while established |
| Connection.Connection.ArrivalIsAcknowledged | src/nty_tcp.c:1622-1717 | so it is when the segment arrives, in the window and without an old timestamp |
| Connection.Connection.SendControl | src/nty_tcp.c:2168-2241 | exactly when a FIN goes out, and under which number; when the packet waits for the send and ack lists; when a reset ends the stream |
| Connection.Connection.FinIsNext | src/nty_tcp.c:2212-2222 | a first FIN follows all the data exactly if snd_nxt is fss, which the code tests in CLOSING only |
| Connection.FinOvertakesData | src/nty_tcp.c:2200-2206 | a run in which a FIN goes out while half of the data was never sent |
| Connection.TimeWaitSkipped | src/nty_tcp.c:1138-1143 | a run from the handshake in which one segment with our FIN's acknowledgement and the peer's FIN leads to CLOSED and the stream is destroyed by the next control packet |
| Connection.Connection.WriteAck | src/nty_tcp.c:2360-2457 | the connection leaves the list exactly when nothing is left to acknowledge |
| Connection.Connection.WriteData | src/nty_tcp.c:2285-2358 | consecutive segments go out from snd_nxt on, as far as the plan says, and the stream leaves the list exactly if the flush did not fail |
| Connection.Connection.AppSend | src/nty_api.c:1111-1201 | send accepts what fits the send window, in ESTABLISHED and CLOSE_WAIT only |
| Connection.Connection.AppRecv | src/nty_api.c:1001-1109 | recv delivers exactly the bytes it returns, and whether it misplaces the rest |
| Connection.Connection.HandleClose | src/nty_tcp.c:1941-1992 | the state after the close, exactly: FIN_WAIT_1, LAST_ACK, CLOSED after a reset, or none of them while a control packet is pending |
| Connection.Connection.RtoFires | src/nty_timer.c:206-344 | with 16 timeouts counted the connection ends; otherwise one more is counted, snd_nxt is back at snd_una and, by state, the send or the control list takes over, data before a FIN; the assertion at 308 holds |
| Connection.Connection.SilenceEnds | src/nty_timer.c:207-247 | in any run that leaves snd_una where it is, the timeouts and the count at the start come to 16 at most unless the connection is destroyed: the timeout that finds 16 counted ends it |
| Connection.Connection.TimewaitExpires | src/nty_timer.c:425-447 | the connection ends unless a control packet is still to be sent |
| Connection.Connection.TimesOut | src/nty_timer.c:464-477 | an idle connection is closed and destroyed |
| Connection.Connection.Run | src/nty_tcp.c:1572-1717 | over every run, given with all the states passed through: each event has the effect the machine gives it, and data rounds emit consecutive segments; emitted segments are right; delivered bytes are a prefix of the peer's, with either line of RBRemove, unless a read misplaced some, where the history stems from the segments that arrived; why the run ended, if it did; FINs have the number after all data; windows only move forward; no stream is on a retransmission list and the time-wait list; TIME_WAIT only after both FINs; send variables ordered while established |
| RbShape.PlugBalanced | include/nty_tree.h:402-522 | a subtree that fits its context completes a balanced tree |
| RbShape.FocusBalanced | include/nty_tree.h:402-522 | and every position of a balanced tree splits so |
| RbShape.BalancedDepth | include/nty_tree.h:402-522 | the longest path is at most twice the shortest |
| RbShape.Recolour | include/nty_tree.h:411-416 | a red uncle: recolouring moves the one bad edge up two levels and keeps the order |
| RbShape.Lift | include/nty_tree.h:423-424 | the outer grandchild: one rotation leaves no bad edge |
| RbShape.Demote | include/nty_tree.h:454-458 | a red sibling is rotated away without changing what is missing |
| RbShape.Redden | include/nty_tree.h:459-465 | two black nephews: the missing black node moves up one level |
| RbShape.Settle | include/nty_tree.h:477-483 | a red far nephew makes up for the missing black node |
| RbShape.OrderBoth | include/nty_tree.h:533-572 | moving the successor into the removed node's place removes exactly that node from the order |
| RbTree.Head.RotateLeft | include/nty_tree.h:338-356 | the rotated tree, parent and root links included, and nothing else changed |
| RbTree.Head.InsertColor | include/nty_tree.h:403-444 | the loop ends in a balanced tree with the same order |
| RbTree.Head.RemoveColor | include/nty_tree.h:446-522 | the loop ends in a balanced tree with the same order |
| RbTree.Head.Find | include/nty_tree.h:622-637 | RB_FIND returns a node with the key exactly if there is one |
| RbTree.Head.Insert | include/nty_tree.h:592-619 | an equal key is returned and nothing changes, or the sorted order gains exactly the new node; balance and links kept |
| RbTree.Head.Remove | include/nty_tree.h:524-589 | the sorted order loses exactly the given node; balance and links kept |
| RbTree.Head.MinMax | include/nty_tree.h:703-717 | the first or last node of the order, null exactly if there is none |
| SpscRing.Ring.Store | src/nty_buffer.c:782-796 | an enqueue gives up exactly if the ring was full when it read the head; writing the slot disturbs no pending element |
| SpscRing.Ring.PublishHead | src/nty_buffer.c:802-808 | the oldest pending element is taken, and it is not NULL |
| SpscRing.Ring.Run | src/nty_buffer.c:782-812 | under every schedule each step has the effect of its access; what is dequeued is a prefix of what was enqueued, at most `capacity` behind, and each value enqueued was offered by a turn of its own |
| StreamLists.SlotsApart | src/nty_timer.c:97-106 | two deadlines less than 3000 ticks ahead share a slot exactly if they are 2296 ticks apart across the wrap of the clock; those further ahead share the last list |
| StreamLists.Manager.AddToRto | src/nty_timer.c:82-110 | the stream is on exactly one list of the wheel, counted once; exclusive with TIME_WAIT exactly if it was not there |
| StreamLists.Manager.AddToTimewait | src/nty_timer.c:123-143 | it moves to the end of the time-wait list, off the wheel, and the list stays in order of expiry |
| StreamLists.Manager.Touch | src/nty_timer.c:177-183 | a stream that is active goes to the end, so the list stays in order of activity |
| StreamLists.Manager.Destroy | src/nty_stream.c:373-384 | a destroyed stream is on no list, and no other stream is touched |
| StreamLists.Manager.WriteControl | src/nty_tcp.c:2243-2283 | the first streams leave in order; one whose packet fails keeps the head; exactly those that sent a reset vanish; all lists afterwards |
| StreamLists.Manager.WriteData | src/nty_tcp.c:2285-2358 | the first streams are flushed without failure and leave, their segments counted as acknowledgements and their timers running; one that fails goes to the end |
| StreamLists.Manager.WriteAck | src/nty_tcp.c:2360-2457 | of the streams visited exactly those with something left to acknowledge stay, what went out being counted |
| StreamLists.Manager.CheckConnectionTimeout | src/nty_timer.c:453-483 | exactly the streams idle for 30 s or more are closed, longest first, up to the threshold: stopping early misses none, and no other stream is closed or removed |
| StreamLists.Manager.CheckTimewaitExpire | src/nty_timer.c:417-451 | exactly the expired streams without a pending control packet are destroyed, up to the threshold; all others stay |
| StreamLists.Manager.RtoFires | src/nty_timer.c:206-344 | a fired stream is off the wheel and on the list that sends again, and nothing else moves |
| StreamLists.Manager.Run | src/nty_tcp.c:2459-2480 | over any run each operation changes the lists as it should, all flags, lists and counters agree, and no stream is on both lists that share the timer link, until an event would arm a stream in TIME_WAIT |
| EpollQueues.Epoll.AddEvent | src/nty_epoll.c:202-250 | an event not queued is already pending, or the queue is full; otherwise it joins the end of the given queue, its bit is set and no other changes |
| EpollQueues.Epoll.Flush | src/nty_epoll.c:163-199 | entries move in order until one queue is empty or the other full |
| EpollQueues.Epoll.Wait | src/nty_epoll.c:522-594 | what is delivered from the two queues, and what stays |
| EpollQueues.Epoll.FreeSocket | src/nty_socket.c:115-136 | a used socket is freed without events, no other changes, and the events that were pending become stale entries |
| EpollQueues.DrainLosesNothing | src/nty_epoll.c:522-594 | with room to spare every wanted entry is delivered |
| EpollQueues.DrainDeliversWanted | src/nty_epoll.c:522-594 | nothing else is |
| EpollQueues.DrainOnce | src/nty_epoll.c:522-594 | no event of a socket is delivered twice |
| EpollQueues.NoLostEvent | src/nty_epoll.c:202-250 | after a flush, a wait with enough room delivers every event whose bit is set on a socket that wants it |
| EpollQueues.Epoll.Run | src/nty_epoll.c:163-600 | over any run each operation has its effect on queues, sockets and counters, and what it delivers is given; a set bit has a queued entry, an event of a socket that was not freed in the run is queued at most once, and registered events are handled, invalidated or queued |
| EventPoll.Poll.Add | src/nty_epoll_rb.c:164-192 | fails exactly on a registered socket; otherwise one item more, not ready |
| EventPoll.Poll.Del | src/nty_epoll_rb.c:193-217 | one item less; the ready list stays sound exactly if it was and the item was not ready |
| EventPoll.Poll.Mod | src/nty_epoll_rb.c:218-229 | the mask of that socket's item, and no other, is replaced |
| EventPoll.Poll.Callback | src/nty_epoll_rb.c:348-375 | the item becomes ready, once, or gathers the event |
| EventPoll.Poll.Wait | src/nty_epoll_rb.c:319-340 | the smaller of the ready count and the maximum is delivered, each item once, and no longer ready |
| EventPoll.Poll.Run | src/nty_epoll_rb.c:164-375 | over any run, given with all the states passed through, the counters agree with tree and list and no item is listed twice; every listed item is registered exactly as long as no item was unregistered in a state in which it was ready |
| EventPoll.DeleteWhileReady | src/nty_epoll_rb.c:193-217 | a run after which the ready list refers to a freed item |
| Mempool.Pool.Alloc | src/nty_mempool.c:130-150 | NULL exactly if nothing is free; otherwise a chunk that is not live, and no live chunk's memory is written |
| Mempool.Pool.Free | src/nty_mempool.c:153-162 | the chunk is free again, whatever its owner left in it |
| Mempool.Pool.Run | src/nty_mempool.c:130-162 | over any run of allocations, frees and owners' writes each changes the client's holding and the free count as it should, and the chunks held are distinct and are the live ones |
| Rss.BuildKeyCache | src/nty_addr.c:379-409 | the table holds the key's windows and repeats every 8 entries |
| Rss.GetRSSHash | src/nty_addr.c:411-449 | the Toeplitz hash: the xor of the 32-bit windows of the key at the positions of the set bits of addresses and ports; the same when the endpoints are swapped |
| Rss.HashSymmetric | src/nty_addr.c:411-449 | both directions of a connection hash alike |
| Rss.SwappedReverses | src/nty_addr.c:450-467 | the byte-order offsets permute the redirection table, four entries at a time, without wrapping |
| Rss.GetRSSCPUCore | src/nty_addr.c:457-470 | a core below the number of queues, the same for both directions |
| AddressPool.SearchSound | src/nty_addr.c:183-203 | what the search finds suits the core, is found once and fits the share |
| AddressPool.SearchComplete | src/nty_addr.c:183-203 | if the share is not used up nothing suitable is missed |
| AddressPool.Collect | src/nty_addr.c:183-203 | the two loops are that search |
| AddressPool.Pool.FetchPerCore | src/nty_addr.c:299-323 | the first free entry, which passes the test of FetchAddress |
| AddressPool.Pool.Fetch | src/nty_addr.c:241-296 | the first free entry that passes, if any; free and used lists account for all |
| AddressPool.Pool.Release | src/nty_addr.c:326-370 | an entry in use is free again; a foreign one is refused; a free one leaves the counters wrong |
| AddressPool.Pool.FetchAgrees | src/nty_addr.c:275-280 | for its own core and destination the test never rejects, so both fetches agree |
| Checksum.AddWords | src/nty_tcp.c:154-166 | the sum of the words, an odd byte padded; 31 bits suffice |
| Checksum.CalculateChecksum | src/nty_tcp.c:148-180 | the answer for the words of the twelve bytes of the pseudo-header and the segment, zero exactly if their sum is a multiple of 65535 |
| Checksum.PseudoWords | src/nty_tcp.c:169-170 | what the code adds for addresses, protocol and length is the sum of the words of the twelve pseudo-header bytes |
| Checksum.DetectsAddress | src/nty_tcp.c:169-170 | a segment that verifies for one source address verifies for another exactly if the halves of the addresses sum alike modulo 65535 |
| Checksum.ChecksumOfZeros | src/nty_tcp.c:148-180 | the checksum of a concrete segment between concrete addresses |
| Checksum.InCksum | src/nty_eth.c:66-88 | the same without pseudo-header |
| Checksum.ChecksumVerifies | src/nty_tcp.c:1585-1587 | a segment with its checksum stored verifies, for every length and either order of the addresses |
| Checksum.HeaderVerifies | src/nty_eth.c:66-88 | so does a header |
| Checksum.DetectsOneWord | src/nty_tcp.c:1585-1587 | changing one word of a verified segment is detected, except between 0 and 65535 |
| Options.ParseOptions | src/nty_tcp.c:343-383 | the loop on every input on which it ends |
| Options.ParseEndsIff | src/nty_tcp.c:349-380 | it ends exactly if none of the positions it comes to holds an option of an unknown kind with length 0 |
| Options.ParseFolds | src/nty_tcp.c:343-383 | on well-formed options it is the fold over them, whatever cuts them off |
| Options.GenerateOptions | src/nty_tcp.c:194-227 | the option area is filled exactly with the layout |
| Options.WireBytes | src/nty_tcp.c:194-227 | the bytes on the wire, in numbers, for a SYN and for other segments |
| Options.SynParses | src/nty_tcp.c:199-217 | parsing what a SYN carries gives back segment size, timestamp and window scale |
| Options.ParseTimestamp | src/nty_tcp.c:410-437 | the scan of the code, on every input |
| Options.ScanFindsIff | src/nty_tcp.c:410-437 | the scan returns a timestamp's values exactly if it comes to its position, or stops where the same bytes happen to stand |
| Options.ScanFinds | src/nty_tcp.c:415-416 | behind options followed by a NOP each it comes there |
| Options.ScanSkips | src/nty_tcp.c:415-416 | with one option more in front it does not |
| Options.PlainRoundTrip | src/nty_tcp.c:219-224 | on what this stack sends outside the SYN the timestamp comes back |
| Options.OddNopHides | src/nty_tcp.c:415-433 | behind a single NOP it is missed if the first byte of its value is 0 or at least 8 |
| Options.OddNopMisreads | src/nty_tcp.c:415-433 | for another value something else is returned for it |
| Options.OddNopCoincides | src/nty_tcp.c:415-433 | and for a third the right values, by coincidence |

## Left out

- Active open (SYN_SENT), which the API disables; LISTEN is the constructor of a connection; demultiplexing, netmap, ARP,
  IP and Ethernet headers, and the memory they are written to.
- Locks, condition variables and blocking: a locked section is one step, and nothing is claimed about deadlock. The
  lock-free queues are modelled access by access, assuming sequential consistency.
- Round-trip estimation and the growth of the congestion window; the retransmission timeout is a parameter where it is
  needed. When the timer wheel fires is left out too: an entry's slot is `ts_rto % RTO_HASH` while the sweep counts from
  0, so there is no on-time property to state.
- Allocation failure of buffers and fragments; hugepages and mlock.
- ReceiveBuffer.RingBuffer.Put: requires that `cur_seq - head_seq + len` does not overflow a C int, which the window check of
  its caller ensures.
- ReceivePath.Receiver.ProcessPayload: segments after the peer's FIN was consumed do not reach it, as the state handlers never
  call it then.
- SendPath.Sender.ProcessAck: requires a non-zero `eff_mss`, by which the code divides; the window arrives already scaled.
- SendPath.Sender.TakeAck: the same, and that snd_nxt is not before the buffer's head, where the run has ended.
- Connection.Connection.Run: the model of a run ends where the process would (see `halted` above) and when the connection is
  destroyed; `closeq_int` is never drained, so only safety is claimed.
- StreamLists.Manager.CheckConnectionTimeout: requires that no listed stream was idle for 2^31 ticks, beyond which the 32-bit
  difference wraps.
- StreamLists.Manager.CheckTimewaitExpire: requires that no deadline is 2^31 ticks away, for the same reason.
- StreamLists.Manager.WriteControl: what sending a packet comes to is a parameter; Connection.SendControl models it.
- StreamLists.Manager.WriteData: what a flush comes to is a parameter; SendPath.Flush models it.
- StreamLists.Manager.WriteAck: how many acknowledgements go out is a parameter; Connection.WriteAck models it.
- StreamLists.Manager.RtoFires: what HandleRTO decides is a parameter; Connection.RtoFires models it.
- StreamLists.Manager.AddToRto: the damage to a shared link, when a stream is in TIME_WAIT, is not modelled beyond the lost
  exclusiveness.
- EpollQueues.Epoll.AddEvent: events carry a single bit, as every caller's do; waking the waiting thread is left out, and so is
  `nty_raise_pending_stream_events`, which only calls this.
- EpollQueues.Epoll.AllocateSocket: the free list of sockets is a parameter.
- EventPoll.Poll.Callback: requires a registered socket, which the code asserts.
- Mempool.Pool.constructor: requires a positive size, since the code writes a header into the first chunk.
- Rss.BuildKeyCache: the key is the one in the source, forty bytes of 0x05.
- AddressPool.Pool.Release: what releasing a free entry does to the link at the end of the used list is not modelled.
  `CreateAddressPool`, the variant without a core test, is left out.
- Checksum.CalculateChecksum: a little-endian host, on which the odd byte is the low byte of its word.
- Options.ParseOptions: requires an input on which the loop ends (ParseEndsIff), and that the segment goes on for nine bytes
  behind the options, where an option cut off by their end is read.
- The listing of free file descriptors, the flow and listener hash tables, the splay tree macros, RB_NFIND, RB_NEXT and
  RB_PREV, argument checking and errno.
