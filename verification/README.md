# A verified model of kcp-go

kcp-go is a reliable-UDP library: an ARQ protocol engine (`kcp.go`), forward error
correction (`fec.go`, `autotune.go`), a post-processing pipeline shared by all sessions
(`postprocess.go`, `sendqueue.go`, parts of `sess.go`), a timed scheduler
(`timedsched.go`), packet encryption in cipher feedback mode (`crypt.go`) and the ring
buffer underneath (`ringbuffer.go`).  This project models their logic in Dafny and proves
what the library is for: bytes and messages arrive once and in order, acknowledgements
are true, windows hold for arbitrary input, buffers are never overrun, erasure recovery
returns exactly what is missing, no wake-up is lost, Close is final.

`dafny verify dfyconfig.toml` verifies the whole project.

## How it is organised

| files | contents |
|---|---|
| `Serial`, `Option`, `Facts` | 32-bit circular comparison; optional values; facts of arithmetic |
| `KcpState`, `Wire` | reference definitions of every engine operation on values; the wire format |
| `KcpWindows`, `Congestion`, `Accounting`, `Timers`, `PacketSizes`, `PoolBounds` | invariants of one endpoint, for every run and arbitrary input bytes |
| `Retransmission`, `Headers`, `InputEffects`, `SendPacking`, `Settings` | what flush, Input, Recv, Send and the settings do, stated on fields, numbers and packets without naming the reference definitions' decisions |
| `Delivery`, `DeliveryRuns`, `DeliveryTheorems`, `MessageDelivery`, `FlowControl`, `MessageWindow` | two endpoints and a network that loses, repeats and reorders |
| `Instances` | concrete runs behind the exceptions |
| `Heap`, `SegmentHeap`, `OutputBuffer`, `KcpLoops`, `KcpWriter`, `KcpFlush`, `KcpEngine` | the imperative engine, class `KCP`, proved to compute the reference definitions |
| `Session`, `SessionStream` | class `UDPSession`: reading and writing; the byte stream between two sessions |
| `RingBuffer`, `SendQueue` | classes over arrays, proved to behave like sequences |
| `HandOff`, `WorkerBatches`, `WorkerSends`, `WakeUps`, `WorkerRuns`, `TimedSched` | concurrent protocols as interleaved atomic steps; what the workers' batches hold; what is handed to tx; wake-ups counted; two runs behind the exceptions |
| `Cfb` | cipher feedback mode, in place on arrays |
| `FecCode`, `FecDecoder`, `FecRuns`, `FecRounds`, `FecEncoder`, `FecRoundTrip`, `FecDecoderClass`, `AutoTune`, `FecRetuned` | erasure coding, the decoder's storage, whole runs, rounds of recovery, the two classes, packets from encoder to decoder, detection of shard counts, recovery after it |

Conventions.  A 32-bit field is a `u32` and every wrapping operation goes through `W`.
The clock is a parameter: `Now(clock, i)` is the i-th reading within one operation.  The
engine keeps one ghost field, `state`, a value of the reference definitions; its `Valid()`
ties the real fields to it.  Packets in flight carry the unbounded numbers behind their
32-bit fields as history (`id`, `unaId`); nothing an endpoint computes depends on them,
they are there to say that no delivered packet is 2^31 numbers stale, which is the one
assumption of the delivery theorems.  An arbitrary packet may be delivered any number of
times, in any order, or never.

## What the code does and does not promise

Some natural claims are false of the code.  Each has an instance that is reached by a run,
and the exact condition.

* A `Send` that returns -2 leaves the queue alone, except in stream mode after it has
  already topped up the last segment: `RefusedSendExample`, and the condition in
  `RefusedSendChangesQueue`.  The session avoids this by sending pieces of at most mss
  bytes (`PieceAccepted`).
* `Send` accepts messages of up to 255 fragments, but one of more fragments than the
  peer's receive window is never readable: `LongMessageExample`, and the condition, the
  fragment count against the window, in `TooLongBlocks` and `ReadableIff`.
* A first fragment numbered 255 counts as a complete message: `MarkedFragmentExample`, and
  the condition in `PeekCondition`.  `Send` makes no such fragment.
* A recovered group can recover again: `RecoversTwice`.  Recovery comes in rounds, and
  `GroupRecovers` says exactly which arrival of a round recovers.
* The decoder keeps the newest shard set and the three before it, but only two before it
  when the ids have started again in between, because they start again below 2^32:
  `DroppedAcrossWrap`, and the condition in `RetentionRule`.
* A worker can leave `postProcess` with packets still in its batch, and the next session it
  serves then sends them: `BatchOutlivesClose`.  The guard is the early return of
  `postProcess` (sess.go:763-766): within the budget the pop finds the queue empty while
  the batch is not, which happens only when Close has emptied the queue.  `LeavesWithBatch`,
  `LeftOverIff` and `ForeignIff` state this as if-and-only-ifs over every run without a
  shared record (next point).  The comment on `postProcess` (sess.go:759) does not mention it.
* Two workers can share one batch: `RecordIsShared`.  `flushTx` puts the worker's record back
  into the pool when the session is closed (postprocess.go:84-88), the worker goes on using
  it, and a worker that starts later can take it (postprocess.go:184).  `SharedIff` says that
  this is the only way: a record is shared exactly when a worker started on it out of the
  pool.  `BatchesAreOwn` and the if-and-only-ifs above hold up to that moment (`Unpooled`).
* Payloads are copied into pool buffers of 1472 bytes, and the code fails when one is longer.
  Exactly when: `SendFitsIff` and `InputFitsIff`.  With MTUs of at most 1496 at both
  endpoints it never happens (`PoolSafety`).
* The retransmission timeout is the smoothed round trip plus four deviations, clamped, as
  long as the 32-bit sum does not wrap: `TimeoutWraps` is a first sample of sixteen days
  that leaves the shortest timeout, and the condition is in `TimeoutStep` and, for a first
  sample, as an if-and-only-if in `FirstTimeoutWraps`.
* With fast resend off the resend threshold is 0xffffffff, and an early retransmit sets cwnd
  to ssthresh - 1 because the sum wraps: `EarlyResendExample`, and the condition in
  `PenaltyStep` and `ResentSmall`.

## Model

| member | source | states |
|---|---|---|
| Serial.DiffIsUnboundedDifference | kcp.go:115-117 | the circular comparison is the unbounded difference inside half the range, and negative both ways at exactly 2^31 |
| WireFormat.ParseLoopRoundTrip | kcp.go:137-149 | parsing the encoding of any segments followed by any bytes gives exactly those segments, in order, and goes on with the rest |
| WireFormat.PacketRoundTrip | kcp.go:614-645 | every non-empty packet of sendable segments parses to itself with verdict 0 |
| WireFormat.ParseIsInverse | kcp.go:613-647 | for all bytes: what is taken is, byte for byte, the encoding of segments of the conversation; the loop stops with 0 only when less than a header is left and refuses only where no segment of the conversation could stand |
| WireFormat.Layout | kcp.go:137-149 | the place and byte order of every header field, against an independent little-endian reading |
| WireFormat.PacketsPartition | kcp.go:1001-1021 | cutting a flush into packets keeps every segment once and in order; a packet exceeds the MTU only when it is a single segment larger than the MTU |
| WireFormat.PacketsAreTight | kcp.go:1015-1021 | a packet is handed over only when what comes next would not have fitted |
| KcpWindows.RunsKeepWindows | kcp.go:479-553 | in every run from a new endpoint, whatever bytes arrive, snd_buf holds exactly una..nxt-1 modulo 2^32, at most 65535 of them, and the receive queue is a consecutive run ending at rcv_nxt-1 |
| KcpWindows.RunsKeepReceiveWindow | kcp.go:561-595 | with the window fixed, every run keeps buffered numbers inside [rcv_nxt, rcv_nxt+wnd), both collections at most wnd, and rcv_nxt buffered only when the queue is full |
| KcpWindows.AdmissionRule | kcp.go:852-876 | flush moves the longest prefix of the queue that keeps the flight within each of snd_wnd, rmt_wnd and, with congestion control, cwnd |
| KcpWindows.StepKeeps | kcp.go:540-553 | every operation keeps both window invariants |
| KcpWindows.BufferBound | kcp.go:152-189 | distinct numbers within a window of w are at most w |
| KcpWindows.FlushKeepsReceiver | kcp.go:780-1012 | flush touches neither the receive side nor the configuration |
| DeliveryTheorems.ByteStreamDelivery | kcp.go:329-450 | in every run of two endpoints, in both directions and any mix of modes, the bytes returned by Recv are a prefix of the bytes taken by the peer's Send |
| DeliveryTheorems.AcknowledgedIsHeld | kcp.go:479-510 | whatever left snd_buf, or had its data recycled, is held by the peer |
| DeliveryTheorems.SystemStep | kcp.go:603-758 | the system invariant behind both theorems survives every step at either endpoint |
| MessageDelivery.MessagesDelivered | kcp.go:297-383 | in message mode the messages returned by Recv are a prefix of the messages Send accepted, boundaries included |
| MessageDelivery.SendIsMessage | kcp.go:420-450 | an accepted buffer becomes one group of fragments numbered down to 0 whose bytes are the buffer |
| SendPacking.SendPacks | kcp.go:386-450 | an accepted Send leaves no room behind: every new segment but the last is full, and in stream mode the one that waited last is filled first |
| SendPacking.SendRefuses | kcp.go:386-432 | -1 exactly for nothing; -2 exactly when more than 255 segments' worth is left after topping up; 0 otherwise |
| FlowControl.PushesFitWindow | kcp.go:762-767 | with fixed receive windows of at least 32, every data segment in flight lies below the top of the peer's window, and inside it when not yet delivered |
| FlowControl.FlushCoversAcks | kcp.go:785-803 | every flush covers each pending acknowledgement by an ACK of its own or by a una above it, and leaves none pending |
| FlowControl.RunsCoverAcks | kcp.go:785-803 | the same at either endpoint, in every state of every run |
| FlowControl.AdvertisedWindow | kcp.go:762-803 | no emitted segment advertises more than the receive window, and each advertises exactly what is free of it when that fits the header |
| Headers.HeadersTellRoom | kcp.go:762-788 | in every run with the receive window fixed, every segment of every packet carries window minus queue length, so 0 exactly when the queue is full, and the next number expected |
| Headers.FlushAcknowledges | kcp.go:791-803 | a flush says, in order, exactly the pending acknowledgements that una does not cover and the last one in any case, with their numbers and timestamps, and leaves none |
| Headers.FlushProbes | kcp.go:806-850 | one WASK exactly when the peer's window is zero and the probe is due, one WINS exactly when telling was asked for, and nothing stays asked for |
| Headers.ProbeTimer | kcp.go:806-828 | the probe timer: off, started at 500 ms, half as long again up to 120000 ms when due, otherwise left alone |
| Headers.RecvReports | kcp.go:338-383 | Recv asks for a window report exactly when the queue was full and has room afterwards |
| Headers.RoomIsReported | kcp.go:377-383 | and the next flush then sends one WINS with the room there is |
| InputEffects.SegmentSettles | kcp.go:490-554 | one segment: everything below its una is gone, the acknowledged number is marked, exactly those sent no later than it are counted as overtaken, nothing else changes |
| InputEffects.PacketIsAcknowledged | kcp.go:664-679 | after a packet exactly its data segments below the top of the window wait to be acknowledged, besides what waited |
| InputEffects.PacketTells | kcp.go:646-690 | the peer's window is what the last segment of a regular packet says, a WASK asks for an answer, the last ACK is the one that is timed |
| InputEffects.InputAdjusts | kcp.go:700-738 | the round trip is timed exactly when there is one to time; the congestion window grows exactly when it is on and something was settled |
| InputEffects.InputFlushes | kcp.go:740-758 | Input ends with a full flush if and only if una moved or some segment in flight was overtaken up to the threshold; otherwise with acknowledgements only if one more would not fit a packet or it was asked for; otherwise with none |
| CongestionControl.GrowthStep | kcp.go:712-740 | growth raises cwnd by at most 2, never past rmt_wnd, never lowers it, keeps cwnd and incr in balance, and equals unbounded arithmetic |
| CongestionControl.PenaltyStep | kcp.go:977-999 | what cwnd and ssthresh become after timeouts, after fast or early resends and otherwise; cwnd is at least 1 and in balance with incr |
| CongestionControl.ResentSmall | kcp.go:878-986 | adding the resend threshold to ssthresh: the sum is exact, or ssthresh - 1 when fast resend is off |
| Retransmission.FlushReacts | kcp.go:962-998 | what a full flush does to cwnd and ssthresh, decided by whether any segment it sent had timed out or been overtaken; the link is given up exactly when a segment was sent as often as the limit |
| Instances.EarlyResendExample | kcp.go:905-986 | a run from a new endpoint with fast resend off in which an early resend leaves cwnd at ssthresh - 1 |
| CongestionControl.RunsStayBalanced | kcp.go:712-999 | in every run (cwnd-1)*mss < incr < (cwnd+1)*mss and ssthresh >= 2, whatever bytes arrive |
| Accounting.ResendsArePaidFor | kcp.go:885-951 | per sequence number, fast plus early resends never exceed timeouts plus one, and xmit is one plus the sum of the three |
| Accounting.AccountExists | kcp.go:885-951 | every run from a new endpoint has an account |
| Accounting.NeverSentAgain | kcp.go:490-510 | once acknowledged, a number is never sent again in the rest of the run |
| Accounting.AccountIsTraffic | kcp.go:938-951 | the account of a number grows exactly by its occurrences in the emitted packets |
| Accounting.StepSettled | kcp.go:894-900 | one operation leaves an acknowledged number acknowledged and unsent |
| Retransmission.FlushDecides | kcp.go:885-949 | for every state, full flush and position, by the clock as it was read there: acknowledged segments are left alone, new ones sent, those overtaken as often as fastresend says, or at all when nothing new goes out, sent at once and marked, all others sent exactly when their time has come, with the timeout backed off |
| Retransmission.OvertakenIsSent | kcp.go:905-920 | whatever the clock says, such a segment is in the packets once and leaves with fastack 2^32-1 |
| Retransmission.AckOnlySendsNone | kcp.go:892-893 | a flush of acknowledgements numbers the same segments and sends none |
| Accounting.FlushPushes | kcp.go:885-960 | a flush puts a number on the wire exactly when its reason says so, once |
| Timers.SmoothingStep | kcp.go:455-476 | srtt moves towards the sample by at most an eighth and never past it; the timeout stays within its limits and equals srtt plus the larger of interval and four deviations, clamped, while that is below 2^32 |
| Timers.DeviationStep | kcp.go:455-473 | the deviation starts at half the first sample and then moves by a quarter of what is missing, or a thirty-second when the sample is far below, rounded down |
| Timers.TimeoutStep | kcp.go:474-475 | the timeout on unbounded numbers while the sum does not wrap |
| Timers.FirstTimeoutWraps | kcp.go:474-475 | when a first sample makes it wrap, the timeout is the longest one if and only if what is left of the sum reaches it |
| Timers.TimeoutWraps | kcp.go:474-475 | an instance: a first sample of 1431655766 ms leaves the shortest timeout |
| Timers.ProbeStep | kcp.go:806-828 | the remote window is probed only while zero, at intervals that grow from 500 to 120000 ms |
| Timers.RunsKeepTimers | kcp.go:455-476 | in every run, whatever arrives, rto stays within 30 and 60000 ms and the probe interval within its limits |
| Timers.DeadlineIsEarliest | kcp.go:953-956 | the returned deadline is the minimum of the interval and of the time left to every segment in flight that is not due |
| Timers.NothingDueIsLeft | kcp.go:895-929 | a segment in flight that is neither acknowledged nor sent by the loop has time left, or its deadline is exactly 2^31 ms away |
| PacketSizes.PacketsWithinMtu | kcp.go:938-942 | in every run with any changes of the MTU, a packet is at most the current MTU, or a single segment at most the largest MTU so far |
| PacketSizes.RunsKeepRoom | kcp.go:1103-1124 | in every run every waiting segment fits the largest MTU so far |
| PoolBounds.SegmentFitsIff | kcp.go:561-580 | everything received fits a pool buffer of 1472 bytes until a segment that is new and in the window, and longer, is copied, and no longer |
| PoolBounds.InputFitsIff | kcp.go:603-758 | the same for a whole packet of arbitrary bytes: nothing too long is held afterwards if and only if no segment it took was too long |
| PoolBounds.SendFitsIff | kcp.go:386-450 | Send leaves nothing longer than a pool buffer in the queue if and only if it neither makes nor extends such a segment; both conditions are in terms of the buffer, the mss and the last segment |
| PoolBounds.SendsFit | kcp.go:386-450 | in every run of one endpoint without an MTU above 1496, whatever bytes arrive, all that waits to be sent fits a pool buffer and no Send overruns one |
| PoolBounds.PoolSafety | kcp.go:283-286 | in every run of two endpoints with MTUs of at most 1496, over a network that loses, repeats and reorders, no operation of either ever overruns a pool buffer |
| Timers.FlushAgainSoon | kcp.go:890-956 | in every run flush asks to be called again after more than 0 and at most interval ms |
| Retransmission.FlushDeadline | kcp.go:887-956 | the deadline a full flush returns is at most the interval and any time left of a segment in flight, and equals one of them |
| Heap.RootIsLeast | timedsched.go:47-83 | the root of a heap is a minimum |
| Heap.Push | timedsched.go:47-58 | keeps the heap order and adds exactly the element |
| Heap.Pop | timedsched.go:60-83 | removes exactly a least element and keeps the heap order |
| SegmentHeap.LessAgrees | kcp.go:167-169 | inside half the circle the heap's circular comparison is a total order by distance |
| SegmentHeap.Push | kcp.go:172-176 | heap and marks represent the map with the segment added |
| SegmentHeap.Pop | kcp.go:177-185 | takes the segment nearest to rcv_nxt, rcv_nxt itself if present, and represents the map without it |
| OutputBuffer.EncodeHeader | kcp.go:137-149 | writes exactly the 24 header bytes at the offset and nothing else |
| OutputBuffer.Outlet.MakeSpace | kcp.go:1015-1021 | hands the packet over exactly when the space does not fit the MTU; afterwards it fits or the buffer is empty |
| OutputBuffer.Outlet.Put | kcp.go:938-942 | appends the encoding of the segment to the packet being filled, inside the buffer |
| OutputBuffer.Outlet.Finish | kcp.go:1001-1004 | hands over what is left, if anything |
| KcpWriter.WriteAcks | kcp.go:785-803 | phase 1 emits the acknowledgements of the reference definition, packet by packet |
| KcpWriter.WriteProbes | kcp.go:830-850 | phases 2 and 3 emit the window probes that are due |
| KcpWriter.TransmitAll | kcp.go:885-960 | the transmit loop updates every segment and emits exactly the packets of the reference definition |
| KcpLoops.SendBytes | kcp.go:386-450 | Send's loop computes the new queue and the return code |
| KcpLoops.CountAcknowledged | kcp.go:540-553 | the scan finds the number of segments the cumulative acknowledgement covers |
| KcpLoops.MarkAck | kcp.go:490-510 | the scan marks the segment at the acknowledged position, or none |
| KcpLoops.BumpOvertaken | kcp.go:514-536 | the scan counts every earlier segment sent no later as overtaken, and tells whether one reached the threshold |
| KcpLoops.InFlightMeans | kcp.go:490-494 | the guard of parse_ack and parse_fastack holds exactly of the numbers in snd_buf |
| KcpLoops.TakeNext | kcp.go:581-592 | takes the heap's least segment exactly when it is next and there is room, and otherwise changes nothing |
| KcpLoops.MoveReady | kcp.go:363-374 | moves the whole run starting at rcv_nxt that fits the window |
| KcpLoops.InsertData | kcp.go:561-595 | parse_data, and repeat exactly for numbers outside the window or already buffered |
| KcpLoops.MessageSize | kcp.go:297-326 | the size of the leading message, or -1 when incomplete |
| KcpLoops.PeekIsLength | kcp.go:297-326 | a size that is not negative is the length of the leading message |
| KcpLoops.AdmittedTest | kcp.go:861-863 | after any number of admissions the circular test means that the buffer has reached the window |
| KcpLoops.AdmitQueued | kcp.go:852-876 | numbers and moves exactly the admitted segments |
| KcpLoops.SenderSegment | kcp.go:651-664 | what one incoming segment does to the send side, and whether it asks for a flush |
| KcpLoops.CopyMessage | kcp.go:344-361 | copies exactly the leading message into the caller's buffer and leaves the rest of it alone |
| KcpLoops.ReceiveMessage | kcp.go:329-383 | Recv: codes -1 and -2, the bytes, the moved run, and the window report after a full queue |
| KcpFlush.Phases | kcp.go:780-1012 | all phases of flush together compute the new state, the next deadline and the emitted bytes |
| KcpEngine.KCP.constructor | kcp.go:259-280 | a new endpoint with an encoding buffer of its own |
| KcpEngine.KCP.Send | kcp.go:386-450 | the engine's Send computes the reference definition and keeps room for every queued segment |
| KcpEngine.KCP.PeekSize | kcp.go:297-326 | the size of the leading message |
| KcpEngine.KCP.Recv | kcp.go:329-383 | Recv computes the reference definition and writes only the message into the buffer |
| KcpEngine.KCP.InputSegment | kcp.go:647-696 | one incoming segment, heap and marks included |
| KcpEngine.KCP.ParsePacket | kcp.go:614-700 | the parse loop applies exactly the segments that parse, in order, and keeps them when a later one is refused |
| KcpEngine.KCP.Input | kcp.go:603-758 | Input on raw bytes: state, code and emitted bytes |
| KcpEngine.KCP.Flush | kcp.go:780-1012 | flush: state, next deadline and exactly the emitted bytes, never outside the buffer |
| KcpEngine.KCP.SetMtu | kcp.go:1103-1124 | refuses an MTU not above the header; otherwise allocates a buffer with room for the MTU and for every waiting segment |
| KcpEngine.KCP.NoDelay | kcp.go:1133-1157 | each setting is taken when not negative, the interval clamped |
| KcpEngine.KCP.WndSize | kcp.go:1161-1169 | each window is taken when positive |
| KcpEngine.KCP.ResetRTO | kcp.go:1191-1198 | every segment in flight becomes due now |
| Settings.NoDelayTakes | kcp.go:1133-1157 | every argument that is not negative is taken, the interval within 10 and 5000, the shortest timeout 30 or 100, and nothing else changes |
| Settings.WndSizeTakes | kcp.go:1161-1169 | each positive window is taken and nothing else changes |
| Settings.ResetIsSent | kcp.go:1191-1198 | after ResetRTO the next full flush at the same time sends every unacknowledged segment in flight |
| Session.ReadConserves | sess.go:296-333 | a read takes no message and shifts the kept tail, or takes exactly one message and keeps its tail |
| Session.ReadGives | sess.go:296-333 | a read fails exactly when no tail is kept and no message can be received; otherwise it gives as much as the buffer holds |
| Session.PieceAccepted | sess.go:380-388 | Send accepts every non-empty piece of at most mss bytes whole, in either mode |
| Session.WriteAppends | sess.go:368-399 | a write queues every byte of every slice, in order |
| Session.RefusedSendChangesQueue | kcp.go:397-429 | exactly when a refused Send has changed the queue |
| Instances.RefusedSendExample | kcp.go:397-429 | a run from a new endpoint in which a refused Send has changed the queue |
| MessageWindow.PeekCondition | kcp.go:297-309 | exactly when the leading message counts as complete |
| Instances.MarkedFragmentExample | kcp.go:307-309 | a run from a new endpoint in which a first fragment numbered 255 is taken for a whole message |
| MessageWindow.TooLongForWindow | kcp.go:307-366 | whatever bytes arrive, a first fragment that announces more fragments than the window blocks its reader for the rest of every run |
| MessageWindow.TooLongBlocks | kcp.go:307-366 | two endpoints, message mode: an accepted message of more fragments than the receiver's window is never read, nor is any behind it, in every later state |
| MessageWindow.ReadableIff | kcp.go:297-383 | once all its fragments have arrived and its predecessors are read, an accepted message can be read if and only if its fragment count is at most the window, and then Recv returns it |
| MessageWindow.ReadableWhenQueued | kcp.go:297-383 | the next message can be read exactly when as many segments are queued as it was cut into |
| Instances.LongMessageExample | kcp.go:307-366 | a run of two endpoints: window 1, a message of two fragments, both held, not readable |
| Session.UDPSession.ReadLocked | sess.go:296-333 | a read returns the right bytes for a buffer of any size and keeps the rest; everything read so far joins to the messages received |
| Session.UDPSession.SendSlice | sess.go:377-390 | one slice goes to the engine in pieces of at most mss bytes |
| Session.UDPSession.WriteBuffersLocked | sess.go:368-399 | refuses exactly when the window is full; otherwise queues every byte and flushes exactly when the window has filled or writes are not delayed |
| SessionStream.SessionDelivery | sess.go:296-399 | in every run of two sessions over a lossy network the bytes read at one end are a prefix of the bytes written at the other |
| SessionStream.WritesAreSession | sess.go:368-399 | what a write does to the engine in those runs is what class UDPSession does |
| SessionStream.ReadsAreSession | sess.go:296-333 | and so is a read |
| Ring.RingBuffer.constructor | ringbuffer.go:41-50 | an empty ring |
| Ring.RingBuffer.Len | ringbuffer.go:53-60 | the length of the abstract sequence |
| Ring.RingBuffer.Push | ringbuffer.go:63-70 | appends, growing when full |
| Ring.RingBuffer.Pop | ringbuffer.go:73-84 | drops and returns the first element, and clears its slot |
| Ring.RingBuffer.Peek | ringbuffer.go:87-94 | the first element |
| Ring.RingBuffer.Discard | ringbuffer.go:97-119 | drops the first n, or all, and clears their slots |
| Ring.RingBuffer.ForEach | ringbuffer.go:125-149 | visits in order, with updates and early stop |
| Ring.RingBuffer.ForEachReverse | ringbuffer.go:154-178 | visits in reverse order, with updates and early stop |
| Ring.RingBuffer.Clear | ringbuffer.go:181-198 | the empty sequence, every slot cleared |
| Ring.RingBuffer.IsEmpty | ringbuffer.go:201-203 | the sequence is empty |
| Ring.RingBuffer.MaxLen | ringbuffer.go:207-209 | how many elements fit without growing |
| Ring.RingBuffer.IsFull | ringbuffer.go:213-215 | the next push grows the ring |
| Ring.RingBuffer.Grow | ringbuffer.go:222-250 | a larger array with the same sequence |
| Ring.RingBuffer.At | ringbuffer.go:255-261 | the i-th element |
| Ring.RingBuffer.Assign | ringbuffer.go:255-261 | writing through the pointer changes exactly the i-th element |
| Ring.VisitedAll | ringbuffer.go:125-178 | both traversals reach every element when the callback never stops |
| PostQueue.SendQueue.Push | sendqueue.go:39-53 | appends exactly while fewer than 2048 wait, compacting in place |
| PostQueue.SendQueue.Pop | sendqueue.go:56-72 | drops and returns the oldest |
| PostQueue.SendQueue.Length | sendqueue.go:75-79 | the number waiting |
| HandOff.OneClaim | postprocess.go:115-139 | in every interleaving ppRunning is set exactly when a claim exists, and there is at most one: a queue entry, a worker or a producer about to enqueue |
| HandOff.NoLostWakeUps | postprocess.go:115-215 | packets waiting at an open session always have a claim, a producer about to claim or a worker that will look again; and a non-empty worker queue has an awake worker or a signal on its way |
| WakeUps.EveryEntryIsServed | postprocess.go:150-200 | in every run, while any worker sleeps, the worker queue has no more entries than workers about to look plus signals about to be sent |
| HandOff.CloseIsFinal | sess.go:523-541 | after Close has shut the gate no worker is in, or ever enters, tx for the session; after its drain the queue stays empty |
| WorkerBatches.SharedIff | postprocess.go:75-92 | in every run two workers share a record if and only if a worker started on it out of the pool |
| WorkerBatches.PooledWasReturned | postprocess.go:84-88 | every record in the pool was put there by a worker that dropped a closed session's batch, and is still used by a worker |
| WorkerBatches.BatchesAreOwn | sess.go:760-858 | until a worker starts on a pooled record, a worker's batch holds only packets of the session it serves or of closed sessions |
| WorkerBatches.LeavesWithBatch | sess.go:760-767 | up to the same moment, in every run a worker leaves postProcess with packets in its batch if and only if a pop within the budget finds the queue empty while the batch is not; all of them then belong to closed sessions |
| WorkerBatches.LeftOverIff | sess.go:760-858 | a worker outside postProcess carries packets if and only if it came out of it that way |
| WorkerBatches.ForeignIff | sess.go:760-858 | a worker inside has a packet of another session in its batch if and only if it brought it in and has not sent its batch since |
| WorkerBatches.OutsideHoldsClosed | postprocess.go:183-215 | a worker that serves no session holds packets of closed sessions only |
| WorkerBatches.PassIsBounded | sess.go:760-858 | a worker takes at most 256 packets in one pass, and no more into a batch that has 64 |
| WorkerSends.SentInOrder | sess.go:760-858 | in every run without a shared record, while a session is open what was put into its queue is, in order, what was handed to tx, what its worker carries and what waits; once closed, what was handed to tx is a prefix: each packet at most once, in order, and only Close discards |
| WorkerSends.AllIsSent | postprocess.go:129-139 | an open session without claim and without waiting packets has handed everything to tx |
| WorkerRuns.BatchOutlivesClose | sess.go:760-858 | a reachable state without shared records in which a packet of a closed session is being sent with another session's |
| WorkerRuns.RecordIsShared | postprocess.go:84-184 | a reachable state in which two workers share a record, and one of them has a packet of an open session in its batch that it does not serve |
| HandOff.StepKeeps | postprocess.go:98-215 | every atomic step keeps the invariant behind these |
| TimedSched.Push | timedsched.go:47-58 | keeps the heap and adds exactly the task |
| TimedSched.Pop | timedsched.go:60-83 | takes exactly the first deadline |
| TimedSched.TakeDue | timedsched.go:134-138 | takes exactly the tasks due within the limit, in order of deadline |
| TimedSched.Shard.Insert | timedsched.go:185-199 | adds the task; wakes the shard exactly when its deadline is the first and the timer is not armed for as early |
| TimedSched.Shard.Collect | timedsched.go:133-150 | takes what is due and otherwise arms the timer for the first deadline |
| TimedSched.SchedulerSafety | timedsched.go:129-199 | in every interleaving what was put has run, is about to run in order of deadlines, or waits, so none runs more often than put and none is lost; none runs more than the slack early; a parked shard with tasks has a wake-up coming or a timer early enough |
| TimedSched.DueTaskIsServed | timedsched.go:129-199 | a due task never waits without the shard awake or a wake-up possible now |
| Cfb.RoundTrip | crypt.go:334-697 | decryption undoes encryption and the other way round, for every length and block function |
| Cfb.EncryptedAt | crypt.go:347-504 | byte i of the ciphertext is byte i of the text combined with byte i mod n of the key, or of the encrypted block of ciphertext before it; the incomplete last block included |
| Cfb.DecryptedAt | crypt.go:521-697 | the same for decryption |
| Cfb.DecryptsFromAnyBlock | crypt.go:507-697 | what decrypts behind a block depends only on the ciphertext from that block on |
| Cfb.Encrypt | crypt.go:347-504 | the unrolled, fallthrough-tailed encryption equals recursive cipher feedback mode, also when dst is src |
| Cfb.Decrypt | crypt.go:521-697 | the same for decryption, whose two key buffers take turns |
| Cfb.EncryptLeft | crypt.go:385-423 | the switch with fallthrough encrypts one block per case passed |
| FecCode.RecoverExact | fec.go:262-335 | from any d or more distinct shards of a group recovery returns exactly the missing data shards, padded |
| FecCode.MissingAll | fec.go:325-330 | every missing position is returned |
| FecCode.MissingAre | fec.go:325-330 | every shard returned belongs to a missing position |
| FecCode.PayloadRoundTrip | sess.go:1137-1149 | the size field cuts the padding off again |
| FecDecoder.CollectKeepsSets | fec.go:224-286 | whatever arrives, each set holds fewer than dataShards packets and no id twice |
| FecDecoder.StorageBound | fec.go:343-356 | from a new or just retuned decoder, over every run with packets near the newest set, at most four sets remain, each with fewer than dataShards packets, also across the wrap of the ids |
| FecDecoder.RecentIsOneOfFour | fec.go:343-356 | a set within three intervals is one of the last four groups |
| FecRuns.RetentionRule | fec.go:343-356 | exactly which groups are kept |
| FecRounds.GroupRecovers | fec.go:161-335 | for a decoder that is new or has just retuned: while its group is kept, an arrival makes decode return exactly the data shards missing from the round, if it is the d-th distinct shard of the group's current round, and nothing otherwise; order, duplicates and other groups do not matter |
| FecRounds.FirstRecovery | fec.go:161-335 | the same without rounds: with fewer than d distinct shards of the group before, exactly a new shard after d-1 distinct ones recovers |
| FecRounds.CollectedInRound | fec.go:224-260 | the collected shards are exactly the distinct ones that arrived since the round began |
| FecRounds.CurrentRound | fec.go:224-287 | every arrival falls into a round: one begins at the start, and one behind every recovery |
| FecRounds.RecoversTwice | fec.go:224-335 | an instance: the same parity packet delivered twice recovers the shard twice |
| FecRounds.DroppedAcrossWrap | fec.go:343-356 | an instance: a group three back is dropped across the wrap of the ids, and its second data shard recovers nothing |
| FecRetuned.SamplesAreGenuine | autotune.go:53-65 | whatever was sampled from an encoder's packets is a genuine pulse of its shard counts |
| FecRetuned.RetunesAtGroup | fec.go:190-221 | a decoder with other counts that retunes on an encoder's packet starts again empty, with the encoder's counts, at that packet's group |
| FecRetuned.RetunedComesBack | fec.go:161-335 | and from there on recovers exactly that encoder's packets of which no shard arrived |
| FecRoundTrip.PacketsComeBack | fec.go:161-335 | packet in, packet out: of what an encoder run sent, in any order and with losses and duplicates, the completing arrival returns exactly the packets of its group at positions of which no shard arrived |
| FecRoundTrip.ParityGoesOut | fec.go:433-493 | every d-th packet takes all p parity packets of its group with it unless they are passed over, and no other packet takes any |
| FecRoundTrip.FilingKeeps | fec.go:412-443 | the groups of d packets hold every packet given to the encoder, once and in order |
| FecRoundTrip.EncodingIsFiled | fec.go:412-493 | after every call, everything stamped so far belongs to its group's id and is genuine, across the wrap |
| FecRuns.ReturnsOriginals | fec.go:288-335 | whatever decode returns at any time is original data of the arriving packet's group |
| FecRuns.RecoveredPayload | sess.go:1137-1149 | and gives the original packet back |
| FecEncoder.NewEncoder | fec.go:383-408 | no encoder exactly when a count is not positive or there is no codec; otherwise one aligned at id 0 |
| FecEncoder.Encoder.Encode | fec.go:412-493 | between calls next modulo shardSize is shardCount and next < paws; the d-th packet completes the group with its parity, or with a gap when it came late or the codec failed; the next group follows, the first after the last |
| FecEncoder.Encoder.Seal | fec.go:496-506 | stamps the next id and moves on, starting again at paws |
| FecEncoder.Encoder.SkipParity | fec.go:521-523 | passes over the parity ids to the start of the next group |
| FecEncoder.Encoder.FinishGroup | fec.go:457-492 | parity packets with consecutive ids in their own positions, or none and a gap |
| FecEncoder.NextId | fec.go:496-523 | adding k ids inside a group stays at or below paws, so it never overflows |
| FecEncoder.DataIsGenuine | fec.go:412-493 | a stamped data packet is what the decoder takes for genuine |
| FecEncoder.ParityIsGenuine | fec.go:478-492 | so is every stamped parity packet |
| FecDecoderClass.EmptySet | fec.go:264-286 | popping a set fills exactly the slots of its packets, counts data shards and finds the longest |
| FecDecoderClass.CollectMissing | fec.go:325-330 | the loop over the data shards returns the missing ones in order |
| FecDecoderClass.DiscardOld | fec.go:343-356 | drops exactly the sets too far behind |
| FecDecoderClass.Rebuild | fec.go:262-335 | recovery on slots and flags equals the reference definition |
| FecDecoderClass.Decoder.Decode | fec.go:224-335 | sets with marks, updated in place, compute the reference definition |
| FecDecoderClass.Decoder.Retune | fec.go:190-221 | takes over counts that make sense, forgets what was collected when they differ |
| FecDecoderClass.Decoder.Receive | fec.go:161-335 | decode as a whole: refused ids, retuning after a mismatch, collecting otherwise |
| FecDecoderClass.RetunesToSender | fec.go:188-221 | a decoder that hears one sender retunes exactly when a whole data and a whole parity pulse are among the samples, and only to that sender's counts |
| FecDecoderClass.RestartedFeeds | fec.go:196-216 | a decoder that has just retuned starts such a run |
| FecDecoderClass.SenderIsExpected | fec.go:176-188 | with equal counts, no genuine packet asks for retuning |
| AutoTune.Sort | autotune.go:107-110 | a permutation, ascending when the samples lie in half a circle |
| AutoTune.Collapse | autotune.go:112-128 | one pulse per id, ids with contradicting samples dropped |
| AutoTune.Scan | autotune.go:130-149 | the width of a complete pulse, or -1 when there is none |
| AutoTune.CompleteIsWidth | autotune.go:130-149 | a complete pulse of genuine samples is exactly as wide as the sender's count |
| AutoTune.DetectsExactly | autotune.go:91-150 | the answer is the sender's count when a whole pulse and both neighbours are among the samples, and -1 otherwise |
| AutoTune.OrderDoesNotMatter | autotune.go:91-150 | the answer depends on which samples there are, not on their order |
| AutoTune.Tuner.Sample | autotune.go:54-65 | the ring keeps the last 258 samples in order |
| AutoTune.Tuner.FindPeriod | autotune.go:91-150 | an answer for the samples in the ring |

## Left out

- Sockets, read and write loops, batched I/O, address checks, listeners, deadlines, rate limiting and the out-of-band callback: plumbing around operating system and library calls.
- Block ciphers, AEAD, CRC32, salsa20, PBKDF2 and nonces: foreign code; the block cipher is an arbitrary function on blocks.
- Reed-Solomon arithmetic: the codec is any code in which dataShards shards determine the data (`Mds`); `RepetitionIsMds` shows that such codes exist.
- FecEncoder.NewEncoder: a codec is assumed to exist for at most 65536 shards, which is the Reed-Solomon library's limit; the guard of 256 is the decoder's (fec.go:140).
- Counters, tracing, logging: they do not affect protocol state.
- Buffer pools: a buffer is a fresh sequence, so reuse of a returned buffer is not modelled; nor is the failure of a copy that does not fit 1472 bytes: where `Overruns` holds the code panics and the model goes on, and PoolBounds says when that is.
- Update and Check (kcp.go:1023-1100): superseded by the deadline flush returns, which is modelled.
- Liveness: eventual delivery does not follow from the code alone; safety and the absence of lost wake-ups are proved instead.
- Delivery beyond the freshness bound: the delivery theorems assume that no delivered packet is 2^31 numbers stale, which circular numbers cannot tell apart.
- Settings of the engine are grouped into records (configuration, congestion, timing, probe) that its methods replace as a whole; the queues snd_buf, snd_queue and rcv_queue are sequences there, and the ring buffer they use is verified on its own.
- KcpEngine.KCP.SetMtu: takes the MTU as a 32-bit number, so the conversion from the host's int is not modelled.
- Cfb.Encrypt: the scratch buffers for the key stream are values, so aliasing between them and the data is not modelled; aliasing of dst and src is. The same holds of Cfb.Decrypt.
- AutoTune.Sort: an insertion sort stands for the library's sort; only that the result is a permutation in order is used.
- FecDecoderClass.Decoder.Decode: the slot and flag caches are local, and padding makes new shards instead of extending buffers in place.
- HandOff: the worker queue is a sequence, without its compaction; postQueue is a sequence here and verified as PostQueue.SendQueue. Each access to a shared record is one atomic step, although the code guards it by no lock. The pool keeps what is put into it; that it may forget records is the choice to start with a new one.
- WorkerBatches.BatchesAreOwn: says nothing about runs after a worker has started on a pooled record, because it is false there (`WorkerRuns.RecordIsShared`).
- TimedSched: one shard; shards share nothing but the round-robin counter, and Close is the step to a state in which nothing runs.
