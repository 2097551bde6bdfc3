# Pipeline-tunnel: a verified model of its core

Pipeline-tunnel carries byte streams between a client and a server session through a chain of transform
modules, over one or more TCP data connections, with its own framing, sequencing, retransmission, reassembly
and flow control. This project models those layers in Dafny and proves what they promise over every input and
every run. It is checked with `dafny verify dfyconfig.toml`.

The layers, and the main theorem of each:

| layer | modules here | main results |
|---|---|---|
| end to end | `ChainFlow`, `EndToEnd`, `EndToEndSplit`, `EndToEndRuns`, `EndToEndPaced`, `ChainSchedule`, `SplitSteps`, `PlainChain`, `Lanes` | `FlowExact`, `FlowIsRun`, `PacedExact`, `PlainExact`, `WorkersIff` |
| split and merge | `SplitHeader`, `Merge`, `MergeHang`, `SplitMerge`, `SplitContext` | `MergeExact`, `MergeComplete`, `ExpandExact`, `LoopEndsIff`, `ReturnsIff`, `HangReached`, `EveryOutputOnce` |
| reliable delivery and reconnect | `ReliableLink`, `DataConnection` | `ExactlyOnce`, `ReconnectExact`, `NothingLostIff`, `ReplayIff` |
| control sequencing | `ControlSeq` | `ControlExact`, `Overrun`, `LostStalls` |
| write buffer and frame reader | `WriteBuffer`, `Tearing`, `Flushing`, `WriteBufferObject`, `FrameReader`, `Segments`, `Varint` | `BufferExact`, `RunTearsIff`, `FlushExact`, `ReaderExact`, `ReadBack` |
| chain construction | `ChainTree`, `ChainBuild`, `ChainOrders`, `ChainUnique`, `ChainObject` | `ChainObject.Chain.constructor`, `PathSpells`, `OneTreeIff` |
| routing, buffers, tasks, backpressure | `ChainRun`, `ChainRouting`, `ChainRuntime` | `RunInv`, `Settled`, `FinishIff`, `WriteRoutes`, `FirstInFirstOut`, `PausedIff` |
| read-interest gating | `Kernel`, `Gating`, `GatingRuns`, `GatingObject` | `FlagsExact`, `PausedStays`, `GateExact` |
| handshake | `ChainCodec`, `Handshake`, `HandshakeRuns` | `HandshakeExact`, `QuietMeansRunning`, `ParsePrintIff` |
| limiter | `Limiter`, `LimiterRuns`, `LimiterCap`, `LimitCtx` | `LimiterExact`, `PacketExact`, `TickExact`, `BurstCapsIff` |
| RLE | `Rle`, `RleBuffers` | `DecodeExact`, `RoundTripIff`, `OverrunIff`, `RleCompress` |
| protocol packets | `Protocol` | `ParseSerialize`, `ParseCut`, `AuthPhaseExact` |

`Bytes`, `Wrappers` and `Arithmetic` hold the types and the facts about remainders that they share.

Code that the source writes as objects updated in place is a class here, whose methods are proved equal, step
by step, to functions on values; the theorems over runs are about those functions. Sockets, clocks, random
choices, iteration orders of hash maps, `malloc` and the transmission network are parameters or free choices,
so the theorems hold for all of their answers.

## Where the code does less than it says

Each of these is proved, with the exact condition where the code does what it is meant to do.

- **Packet numbers do not wrap.** The help text of the split module says that the 32-bit sequence wraps. A
  chunk within the window is accepted at its true packet number exactly when that number is at least the
  expected one and below 2^32 - 16384 (`SplitHeader.ExpandExact`, `SplitHeader.NoWrap`).
- **The merge loop can hang.** It returns if and only if no run of complete packets, from the expected one on,
  leads to a packet on which every chunk number has a chunk that announces a successor (`Merge.LoopEndsIff`; as
  a condition on the table alone `MergeHang.ReturnsIff`). A sequence of chunks from the initial state gets
  there (`MergeHang.HangReached`). On split traffic the loop always ends (`SplitMerge.MergeEnds`).
- **A failed allocation glues packets together.** What was sent of the failed packet is merged with the next
  one (`SplitContext.FailedPacketGlued`).
- **A payload written while the connection is down is lost**, and `wire_write` reports success. Within the
  bounds below, exactly these payloads are lost (`ReliableLink.NothingLostIff`, `ReliableLink.WrittenWhileDown`).
- **Acknowledgements are compared as plain 16-bit numbers.** After 65536 frames an acknowledgement can discard
  a frame that was never delivered, and a cut then loses it (`ReliableLink.TooManySent`); with more than 200
  frames undelivered a cut loses all of them, the replayed ones included (`ReliableLink.TooManyUndelivered`).
- **A control message that is lost stops all later ones** (`ControlSeq.LostStalls`); with 257 open, one is
  applied in place of another (`ControlSeq.Overrun`).
- **A priority frame can be torn by a data frame.** Over a run this happens if and only if some operation begins
  to write data while the front priority frame is partly written (`Tearing.RunTearsIff`,
  `WriteBuffer.SplitPriorityTears`).
- **A server whose chain failed to build still reports it ready.** A running client faces a server that built
  its list if and only if the list fits the message and the server's construction finished; the connections are
  all attached if and only if the server has as many ports as the client (`Handshake.HandshakeExact`,
  `Handshake.FailedBuildRuns`). A failed sub-chain also leaves the entry and the ports naming destroyed copies
  (`ChainObject.Chain.constructor`).
- **A frame of length 0 stalls the reader for ever**, and all that is read behind it (`FrameReader.EmptyFrameStalls`);
  a malformed frame makes it drop the well-formed frames behind it too (`FrameReader.MalformedDrops`).
- **A packet cut inside its length varint parses as an empty packet** (`Protocol.ParseCut`); payloads of at
  most 127 bytes are safe, longer ones are not (`Protocol.AuthPhaseSharp`).
- **RLE loses bytes** when a run of one or two bytes is followed by another short run, unless the input is
  stored (`Rle.RoundTripIff`, `Rle.LossExample`). **Decoding writes one byte past the destination** if and only
  if a run of length 0 is met with the destination full (`Rle.OverrunIff`), which compressed data never
  contains (`Rle.CompressedRuns`).
- **The limiter's burst is not a cap.** It caps what can pass from some moment on if and only if the tokens at
  that moment are at most the burst (`LimiterCap.BurstCapsIff`); after a pause they are more
  (`Limiter.BurstIsNoCap`). A packet in a direction that is not limited is swallowed
  (`Limiter.DisabledSwallows`).
- **Backpressure of the local chain can be missed** by the gate (`Gating.GateExact`, `Gating.BackpressureMissed`).
- **A packet that leaves the chain while `wire_write` fails is freed twice** (`ChainRun.FinishIff`,
  `ChainRuntime.Chain.RunCopy`), and **an empty packet or chunk is leaked** by the split module
  (`ChainRuntime.Chain.RunSplit`, `ChainRuntime.Chain.RunMerge`, `ChainRun.LeakedForEver`).
- **A packet from connection 0 of the wire is queued at a null module** (`ChainRuntime.Chain.PushPacket`).
- **A handler added without events makes the epoll set and the handlers disagree**, unless it replaces one with
  events (`Kernel.AddKeepsIff`).
- **Port numbering depends on the iteration order** of an unordered map if and only if two modules, neither of
  them the last, ask for outputs (`ChainUnique.OneTreeIff`, `ChainUnique.OrdersDiffer`).
- **A second worker can reorder packets.** All runs are exact if and only if there is at most one worker
  (`PlainChain.WorkersIff`), so the end-to-end theorems are about one worker per side.

## Model

| member | source | states |
|---|---|---|
| `ChainFlow.FlowExact` | core/chain.cpp:142-220 | on the trees that the constructors build, with one worker per side: in every run, for all codecs with an inverse, all chunk sizes and all delivery orders within the merge window, what the server's chain emits is a prefix of what was pushed into the client's chain, and all of it when nothing is left on the way |
| `ChainFlow.StepSim` | core/chain.cpp:352-362 | every step on module copies, routed through their links, is a step on configuration indices |
| `ChainFlow.OneCopy` | core/chain.cpp:46-112 | there is a single copy of `split` and of every module before it, so its counters and its table are one |
| `ChainFlow.Onward` | core/chain.cpp:352-362 | output 1 of a copy leads to a copy of the next module, or out by a port of its own after the last |
| `ChainFlow.Outputs` | modules/split/split.cpp:93-106 | every output number that `split` uses leads to a copy of the next module; if `split` is last, all leave by one port |
| `ChainFlow.Backward` | core/chain.cpp:352-362 | output 0 leads to a copy of the previous module, or out at the first |
| `ChainSchedule.FlowIsRun` | core/chain.cpp:142-220 | in every run of the end-to-end system, at every moment: the jobs of each side are the tasks in the queue of a run of that side's chain with one worker, buffer by buffer and in order, the client's in direction 0 and the server's in direction 1; messages on the wires left by their ports, and what left at the server's entry is what was emitted |
| `ChainSchedule.Emit` | core/chain.cpp:352-362 | one write of a running module as steps of that chain: one more job, or one more packet out by the port |
| `ChainSchedule.Enter` | core/chain.cpp:142-169 | one pushed packet as steps of that chain: one more job at its entry |
| `SplitSteps.DoSplit` | modules/split/split.cpp:65-123 | one call of `process_split` is a split step of the end-to-end system, with the same counters before and after |
| `SplitSteps.DoMerge` | modules/split/split.cpp:125-225 | one call of `process_merge` is a merge step of it, with the same table before and after |
| `EndToEndRuns.EndToEndExact` | modules/split/split.cpp:65-225 | emitted is a prefix of pushed in every reachable state, and equal to it when quiet and below the last packet number |
| `EndToEndRuns.OnePacketArrives` | modules/split/split.cpp:65-225 | such runs exist: a run in which a given packet is cut, sent, merged and emitted |
| `EndToEndRuns.SystemInv` | core/thread_pool.cpp:34-71 | every reachable state: packets in line before the cut, every message between is a chunk in its stage of encoding, no chunk is missing, the merge invariant, packets in line after it |
| `EndToEndPaced.PacedExact` | modules/split/split.cpp:139-160 | the same law without a condition on deliveries: it is enough that at most 16384 packets are cut and not yet merged |
| `EndToEndSplit.SplitKeeps` | modules/split/split.cpp:65-123 | cutting a packet at the front of the FIFO queue keeps all of it |
| `EndToEndSplit.MergeKeeps` | modules/split/split.cpp:125-225 | so does merging a chunk; what it writes is the next stretch of the packets pushed |
| `Lanes.OutwardHop` | core/thread_pool.cpp:34-71 | taking the oldest task to the next module leaves the packets, read from the exit backwards, as they were |
| `Lanes.InwardHop` | core/thread_pool.cpp:34-71 | the same on the way back |
| `PlainChain.PlainExact` | core/chain.cpp:142-220 | the end-to-end law for a list of codecs without `split` on one ordered connection, with at most one worker per side |
| `PlainChain.WorkersIff` | core/thread_pool.cpp:34-71 | with workers that take the oldest task and finish in any order: every run of every list of codecs obeys that law if and only if there is at most one worker |
| `PlainChain.Overtaking` | core/chain.cpp:180-196 | two workers or more: a run of nine states in which the second packet is emitted and the first is not |
| `SplitMerge.MergeExact` | modules/split/split.cpp:125-225 | for all packets, chunkings and delivery orders within the window, with duplicates and losses, the output is exactly the longest prefix of packets all of whose chunks arrived |
| `SplitMerge.MergeComplete` | modules/split/split.cpp:165-221 | the first n packets are written once all their chunks have arrived |
| `SplitMerge.MergeEnds` | modules/split/split.cpp:177-221 | every call of `process_merge` on split traffic ends |
| `SplitMerge.RunInv` | modules/split/split.cpp:125-225 | the table holds exactly the arrived chunks of packets not yet written; chunks 0..exp_chunk-1 of the expected packet stay stored until it is flushed |
| `SplitMerge.FlushWrites` | modules/split/split.cpp:182-214 | a flush writes exactly the expected packet, its chunks in id order |
| `SplitMerge.ReceiveKeeps` | modules/split/split.cpp:125-225 | one delivery keeps the invariant and writes exactly the packets it moves past |
| `Merge.DrainHalts` | modules/split/split.cpp:177-221 | the flush loop stops in every state from which it does not hang |
| `Merge.LoopEndsIff` | modules/split/split.cpp:177-221 | the whole loop ends if and only if flushing complete packets, one after the other, never arrives at a packet all of whose chunk numbers have chunks with successors |
| `Merge.HangsRunsOn` | modules/split/split.cpp:177-221 | otherwise it is still running after any number of turns |
| `Merge.LiveEnds` | modules/split/split.cpp:177-221 | it ends if no packet number has all its chunk numbers present with successors |
| `Merge.FullPacketStuck` | modules/split/split.cpp:169-181 | 65536 chunks with successors for a packet number with low bits 65535 are such a packet |
| `MergeHang.ReturnsIff` | modules/split/split.cpp:177-221 | the same read off the table before the call, when no packet's chunks run over into the keys of another packet: it returns if and only if there is no k such that the next k packets are complete and the one after them is stuck |
| `MergeHang.HangReached` | modules/split/split.cpp:125-225 | a sequence of received chunks from the initial state, each call returning, and one more chunk on which the call never returns |
| `SplitHeader.ChunkBytesRead` | modules/split/split.cpp:59-63 | header round trip: low 15 bits of the packet number, flag, chunk id and payload |
| `SplitHeader.HeaderLayout` | modules/split/split.cpp:59-63 | the four bytes: low 15 bits of the packet number with the flag above them, then the chunk id, little-endian |
| `SplitHeader.ExpandUnique` | modules/split/split.cpp:139-144 | away from both ends the expanded id is the one number in the window with these low bits |
| `SplitHeader.ExpandExact` | modules/split/split.cpp:134-160 | which true packet numbers are recovered and which chunks are dropped as orphans, near 0 and near 2^32 included |
| `SplitHeader.NoWrap` | modules/split/split.cpp:139-160 | the sequence stops at 2^32 - 16384 instead of wrapping |
| `SplitContext.Context.constructor` | modules/split/split.cpp:227-283 | a fresh context with at least one output, whose turn is at output 1 |
| `SplitContext.Context.NextChunkSize` | modules/split/split.cpp:52-57 | a size from the configured range |
| `SplitContext.Context.ChunkLength` | modules/split/split.cpp:78-86 | at least 1, at most what remains; from the configured range unless it is the rest of the packet, and all of it for the last chunk of a pass |
| `SplitContext.Context.EmitChunk` | modules/split/split.cpp:87-110 | one chunk with its header on the next output in turn |
| `SplitContext.Context.CutAndEmit` | modules/split/split.cpp:76-110 | the cutting loop ends; its chunks concatenate to the packet or, if an allocation fails, to a strict prefix of it, and its writes are theirs, numbered from the current chunk number |
| `SplitContext.Context.CutOne` | modules/split/split.cpp:76-110 | one turn of that loop |
| `SplitContext.Context.ProcessSplit` | modules/split/split.cpp:65-123 | between 1 and 65536 non-empty chunks that concatenate to the packet, of sizes from the configured range except the last, with consecutive ids, on the outputs in turn; after a failed allocation a strict prefix, with the packet number kept and the chunk number advanced |
| `SplitContext.FailedPacketGlued` | modules/split/split.cpp:87-110 | the chunks sent before a failed allocation and those of the next packet are together the chunks of one packet |
| `SplitContext.Context.TakeRange` | modules/split/split.cpp:183-206 | the ordered walk collects and erases exactly the entries of the expected packet |
| `SplitContext.Context.FlushReady` | modules/split/split.cpp:177-221 | the flush loop, when it returns, computes `Merge.Drain` |
| `SplitContext.Context.ProcessMerge` | modules/split/split.cpp:125-225 | `process_merge`, when it returns, computes `SplitMerge.Receive` and writes its packets to output 0 and nothing else |
| `SplitContext.WritesAreMessages` | modules/split/split.cpp:87-104 | what `process_split` writes are the messages that the merge theorems are about |
| `SplitContext.TurnsGoOn` | modules/split/split.cpp:87-106 | the writes of a packet carry on the turn of all writes before it: each goes to the output after that of the write before, the last being followed by output 1, afresh only when the 32-bit counter wraps |
| `SplitContext.EveryOutputOnce` | modules/split/split.cpp:87-106 | any `num_outputs` consecutive writes use every output once, across packets too, unless the counter wraps among them |
| `ReliableLink.ExactlyOnce` | client/client.cpp:729-759 | unbounded runs with retransmissions and delayed acknowledgements: dispatched is a prefix of sent, all of it when the wire is empty; `unacked` is a contiguous suffix of at most 200 |
| `ReliableLink.DeliverKeeps` | server/session.cpp:1274-1296 | one delivery: repetitions are recognised although the numbers are 16 bits |
| `ReliableLink.ReconnectExact` | client/client.cpp:1389-1426 | any number of cuts, of writes while down and of reconnects with replay: dispatched is a prefix of what was accepted, and all of it when the wire is up and empty, with at most 200 undelivered and at most 65536 sent |
| `ReliableLink.NothingLostIff` | client/client.cpp:724-759 | with those bounds, everything given to `wire_write` arrives if and only if nothing was given to it while the descriptor was closed |
| `ReliableLink.WrittenWhileDown` | client/client.cpp:724-728 | a cut, one payload, a reconnect: the payload never arrives |
| `ReliableLink.ReplayIff` | client/client.cpp:1415-1422 | replay brings the receiver up to date if and only if the queue reaches back to its count |
| `ReliableLink.TooManyUndelivered` | client/client.cpp:752-759 | the bound of 200 is needed: a cut loses every payload |
| `ReliableLink.TooManySent` | client/client.cpp:194-204 | the bound of 65536 is needed: a run that ends with a lost payload and nothing queued |
| `ReliableLink.PopSuffix` | server/session.cpp:1244-1254 | whatever the comparison says, acknowledgements only shorten the queue from the front |
| `DataConnection.Connection.constructor` | client/client.cpp:1389-1426 | both counters 0, nothing queued |
| `DataConnection.Connection.WireWrite` | client/client.cpp:724-759 | `wire_write` computes `ReliableLink.WireWrite` and hands its frame over now; with the descriptor closed it returns 0 and does nothing. Every queued frame carries the time at which it was last handed over |
| `DataConnection.Connection.OnAck` | client/client.cpp:194-204 | the acknowledgement loop computes `ReliableLink.PopAcked` |
| `DataConnection.Connection.OnData` | server/session.cpp:1274-1296 | dispatched if expected, acknowledged in any case |
| `DataConnection.Connection.Retransmit` | client/client.cpp:1428-1444 | the oldest frame is written again if and only if more than 200 ms have passed since it was last handed over, and no other is; the loop ends |
| `DataConnection.TimesNew` | client/client.cpp:752-759 | a new frame keeps the times of the queue right: its number is none of theirs |
| `DataConnection.TimesAgain` | client/client.cpp:1415-1444 | so does a frame that is handed over again |
| `DataConnection.Connection.Hup` | client/client.cpp:266-270 | a hang-up closes the descriptor and keeps counters and queue |
| `DataConnection.Connection.Replay` | client/client.cpp:1415-1422 | after a reconnect every unacknowledged frame is handed over once, in order, with a fresh time, and the queue is otherwise unchanged |
| `DataConnection.CutAtAnyByte` | server/session.cpp:1158-1305 | a connection cut at any byte, carrying data frames among others, has delivered a whole number of frames, in order, each as sent |
| `ControlSeq.ControlExact` | client/client.cpp:1100-1115 | for every order of arrival with at most 256 sent and unapplied: applied is a prefix of sent, and all of it when nothing is in flight |
| `ControlSeq.Overrun` | server/session.cpp:1664-1677 | with 257 the last message can be applied in place of the first |
| `ControlSeq.AppliedAtOnceIff` | server/session.cpp:1664-1677 | a message is applied at once if and only if its number is the next one modulo 256 |
| `ControlSeq.LostStalls` | server/session.cpp:958-986 | as long as a message is missing nothing from it on is applied, and if it is the only one missing everything before it is |
| `ControlSeq.ControlReceiver.constructor` | client/client.cpp:1100-1115 | expects number 0, all slots free |
| `ControlSeq.ControlReceiver.DeliverControl` | client/client.cpp:1100-1115 | `deliver_control` on its two fixed tables computes `ControlSeq.Deliver` |
| `ControlSeq.ControlReceiver.DrainPending` | client/client.cpp:1105-1110 | the drain loop ends and leaves the expected slot free |
| `ControlSeq.ControlSender.constructor` | client/client.cpp:85-113 | counters at 0 |
| `ControlSeq.ControlSender.SendControl` | server/session.cpp:958-986 | the first live connection in turn gets the message and no other does, and the turn moves on by one; without a live one it is dropped, yet its number is used |
| `ControlSeq.Neighbours` | server/session.cpp:974-986 | with all connections live, two messages in a row go to neighbouring connections |
| `WriteBuffer.BufferExact` | common/write_buffer.h:64-150 | for all operations and answers of the socket: `total_size` is the bytes queued, each lane is first in first out, frames that left plus frames queued are those accepted, no priority byte inside a data frame; the stream is whole frames and at most one unfinished one if and only if no priority frame was torn |
| `WriteBuffer.EmitDataFramed` | common/write_buffer.h:124-150 | a socket call for data bytes on a stream of whole frames tears a priority frame if and only if the front one is partly written |
| `WriteBuffer.EmitPrioFramed` | common/write_buffer.h:102-122 | one for priority bytes never does |
| `Tearing.RunTearsIff` | common/write_buffer.h:64-150 | on a socket that takes nothing after it failed: a run tears a frame if and only if one of its operations begins data while the front priority frame is partly written and the socket takes some of it |
| `Tearing.FlushTearsIff` | common/write_buffer.h:124-150 | the condition on the state before a flush |
| `Tearing.WriteTearsIff` | common/write_buffer.h:64-89 | the condition on the state before a write |
| `Tearing.PriorityNeverTears` | common/write_buffer.h:91-95 | `write_priority` never tears |
| `WriteBuffer.SplitPriorityTears` | common/write_buffer.h:64-122 | a run in which a priority frame taken in two pieces is torn by the next write |
| `WriteBuffer.WriteKeeps` | common/write_buffer.h:64-89 | `write` keeps the invariant |
| `WriteBuffer.WritePriorityKeeps` | common/write_buffer.h:91-95 | `write_priority` keeps the invariant |
| `WriteBuffer.FlushKeeps` | common/write_buffer.h:124-150 | `flush_unlocked` keeps the invariant |
| `WriteBuffer.FlushPrioKeeps` | common/write_buffer.h:102-122 | `flush_priority_unlocked` keeps the invariant when no data frame is unfinished |
| `Flushing.FlushExact` | common/write_buffer.h:124-150 | on a socket that does not fail, `flush` returns true if and only if everything is out, and otherwise has gone on until the socket took nothing more; priority frames come before the second data frame |
| `Flushing.FlushPrioExact` | common/write_buffer.h:102-122 | the same for the priority lane |
| `Flushing.WriteReturns` | common/write_buffer.h:64-89 | for all answers: 0 if and only if the frame was accepted and all data is out, 1 if and only if some is queued, -1 if and only if the frame was not accepted |
| `WriteBufferObject.Buffer.constructor` | common/write_buffer.h:14-22 | an empty buffer |
| `WriteBufferObject.Buffer.WriteFrame` | common/write_buffer.h:64-89 | `write` in place computes `WriteBuffer.Write` and its return value |
| `WriteBufferObject.Buffer.WritePriorityFrame` | common/write_buffer.h:91-95 | `write_priority` in place |
| `WriteBufferObject.Buffer.FlushPriorityUnlocked` | common/write_buffer.h:102-122 | the priority loop computes `WriteBuffer.FlushPrio` and ends |
| `WriteBufferObject.Buffer.FlushUnlocked` | common/write_buffer.h:124-150 | the data loop computes `WriteBuffer.Flush` and ends |
| `WriteBufferObject.Buffer.Clear` | common/write_buffer.h:152-159 | both lanes emptied, counts at 0 |
| `WriteBufferObject.ReadBack` | common/write_buffer.h:64-150 | as long as no frame is torn, the frame reader at the other end gets back exactly the frames that left completely, in order |
| `FrameReader.ReaderExact` | server/session.cpp:1158-1305 | for all frames and all cuttings of their bytes into reads, inside the length varint included, exactly those frames in order and exactly the unfinished suffix left |
| `FrameReader.TakeFrame` | client/client.cpp:135-149 | one turn of the parse loop |
| `FrameReader.TakeFrames` | client/client.cpp:135-253 | the parse loop consumes exactly the complete frames |
| `FrameReader.Reader.constructor` | server/session.cpp:1158-1305 | nothing pending |
| `FrameReader.Reader.OnRead` | client/client.cpp:132-257 | one read: dispatched and pending bytes as specified, and compaction is invisible |
| `FrameReader.FrameCut` | server/session.cpp:1158-1305 | no strict prefix of a frame is taken for a frame |
| `FrameReader.MalformedDrops` | client/client.cpp:149-253 | the frames before a malformed one are dispatched, and it and all behind it are dropped |
| `FrameReader.EndlessLengthDrops` | client/client.cpp:142-148 | eight length bytes without an end drop the buffer |
| `FrameReader.EmptyFrameStalls` | client/client.cpp:148-149 | a frame of length 0 is waited for for ever, whatever is read after it |
| `Segments.FeedExact` | server/session.cpp:1158-1305 | any parser that is exact on whole items and patient on prefixes is independent of segmentation |
| `Varint.WriteVarint` | core/protocol.cpp:4-10 | appends the unsigned LEB128 form |
| `Varint.ReadVarint` | core/protocol.cpp:12-23 | reads it back: value, length, and whether it ended |
| `Varint.ScanEnc` | core/protocol.cpp:4-23 | round trip whatever bytes follow |
| `Varint.ScanCut` | core/protocol.cpp:12-23 | a strict prefix is recognised as unfinished |
| `Protocol.BuildPacket` | core/protocol.cpp:25-31 | `serialize` |
| `Protocol.ParsePacket` | core/protocol.cpp:33-50 | `try_parse` with its result and length |
| `Protocol.ParseSerialize` | core/protocol.cpp:25-50 | `try_parse(serialize(p) ++ rest)` gives p and its exact length for all p and rest |
| `Protocol.ParseCut` | core/protocol.cpp:33-50 | a strict prefix parses to 0 exactly when the cut is not inside the length varint |
| `Protocol.TakePackets` | server/session.cpp:74-106 | the loop of the authentication phase |
| `Protocol.AuthPhaseExact` | server/session.cpp:74-106 | payloads up to 127 bytes: independent of segmentation |
| `Protocol.AuthPhaseSharp` | server/session.cpp:74-106 | every longer payload has a cutting that misparses |
| `ChainTree.AddKeeps` | core/chain.cpp:76-106 | one more sub-chain keeps: `near[0]` inverts the forward links, ports contiguous and unique, each owned by one copy of the last module |
| `ChainTree.MainOk` | core/chain.cpp:46-69 | the main chain satisfies all of it |
| `ChainTree.PathSpells` | core/chain.cpp:46-106 | every path from the entry spells the configuration in order along the forward links |
| `ChainBuild.OutputInv` | core/chain.cpp:82-105 | ports given out plus ports still owed stay equal to the product of 1 + extra |
| `ChainBuild.TakeInv` | core/chain.cpp:72-81 | taking up any open request keeps the invariant |
| `ChainBuild.Complete` | core/chain.cpp:46-112 | with no request open: P ports, P the product of 1 + extra over all modules but the last, every copy with the outputs it asked for |
| `ChainOrders.AfterOk` | core/chain.cpp:72-107 | the construction invariant after requests served in any possible order |
| `ChainOrders.ServeOk` | core/chain.cpp:76-106 | serving any open request of a round keeps it |
| `ChainUnique.OneTreeIff` | core/chain.cpp:72-107 | all orders of serving lead to the same finished chain if and only if at most one module other than the last asks |
| `ChainUnique.OrdersDiffer` | core/chain.cpp:72-107 | for any two that ask there are two orders: in one finished chain port 2 parts from port 1 after the first of them, in the other after the second |
| `ChainUnique.OneAskerTree` | core/chain.cpp:72-107 | with one module that asks, the finished chain is the main chain with its sub-chains in order of output |
| `ChainUnique.Finishing` | core/chain.cpp:72-107 | from every state of the construction some order finishes it |
| `ChainObject.Chain.CreateOne` | core/chain.cpp:12-43 | one copy, and its request if it makes one |
| `ChainObject.Chain.MainChain` | core/chain.cpp:46-69 | phase 1 builds the main chain |
| `ChainObject.Chain.LinkMain` | core/chain.cpp:54-69 | the copies of the main chain linked in a row, both ends numbered |
| `ChainObject.Chain.Copies` | core/chain.cpp:86-97 | a row of copies of all later modules behind a copy |
| `ChainObject.Chain.SubChainFor` | core/chain.cpp:82-105 | one extra output computes `ChainTree.AddOutput` |
| `ChainObject.Chain.Serve` | core/chain.cpp:76-106 | one request served: new requests are of later modules only |
| `ChainObject.Chain.Round` | core/chain.cpp:72-107 | a round in any order: the smallest index among the requests rises |
| `ChainObject.Chain.SubChains` | core/chain.cpp:72-107 | at most as many rounds as modules, then no request is open |
| `ChainObject.Chain.constructor` | core/chain.cpp:8-112 | for every configuration, every request and every iteration order it ends: with a finished chain, one of those that some order of serving leads to, or, if a copy cannot be created, with no modules, and then either entry and ports are unset or they name destroyed copies and some port is missing |
| `ChainObject.Chain.TotalExtraOutputs` | core/chain.cpp:251-254 | P - 1 |
| `ChainRun.RunInv` | core/chain.cpp:121-244 | in every run, with any number of workers: each live buffer has exactly one owner, none is freed twice, `_bytes_allocated` is the sizes of the live buffers, `_inflight` the queued and running tasks, at most 128 KiB is never left paused, above 512 KiB always |
| `ChainRun.StepInv` | core/chain.cpp:121-244 | every single step keeps it |
| `ChainRun.RunClean` | core/chain.cpp:198-215 | if modules return with empty hands nothing is leaked |
| `ChainRun.Settled` | core/chain.cpp:121-244 | once nothing is queued, running, stored or with a caller, every buffer ever allocated was freed exactly once and the count is 0 |
| `ChainRun.DrainedIff` | core/chain.cpp:246-249 | `wait_drain` waits for exactly: no task queued and none running |
| `ChainRun.FinishIff` | core/chain.cpp:204-215 | the books stay right if and only if a module does not report failure after giving its packet away |
| `ChainRun.LeakedForEver` | core/chain.cpp:204-215 | what a module leaks stays allocated in every continuation |
| `ChainRouting.WriteRoutes` | core/chain.cpp:352-362 | in every run on a finished chain: a write to output 0 queues one task with this buffer and source, in direction 1, at the copy of the previous module that links here; a write to another output one in direction 0 at the copy of the next module behind that link; or the packet leaves, at the entry by port 0, else by the port of its own copy |
| `ChainRouting.TickRoutes` | core/chain.cpp:352-362 | the same for what a module sends on a heartbeat |
| `ChainRouting.PushRoutes` | core/chain.cpp:142-169 | in every run: packets enter in direction 0 at the copy of the first module, in direction 1 at the copy of the last module that owns the port they came by; without such a copy, an owner, or once cancelled, they are freed |
| `ChainRouting.EmptyChainPasses` | core/chain.cpp:147-151 | without modules a packet from the entry side leaves by port 1 and one from the wire at the entry |
| `ChainRouting.FirstInFirstOut` | core/thread_pool.cpp:34-71 | tasks are taken up in the order in which they were queued |
| `ChainRouting.RunExclusive` | core/chain.cpp:180-199 | for any number of workers, no module is run twice at once in one direction |
| `ChainRouting.CancelledStartsNone` | core/chain.cpp:182-188 | a cancelled chain ends a task that is taken up and frees its packet |
| `ChainRouting.PausedIff` | core/chain.cpp:229-244 | in every run a direction is paused if and only if the bytes have been above 512 KiB and not at or below 128 KiB since |
| `ChainRouting.StepFlags` | core/chain.cpp:229-244 | after every step: on above the high mark, off at or below the low one, as before in between |
| `ChainRuntime.Chain.constructor` | core/chain.cpp:8-11 | nothing allocated, nothing paused |
| `ChainRuntime.Chain.CheckBackpressure` | core/chain.cpp:229-244 | the two flags with hysteresis |
| `ChainRuntime.Chain.AllocBuffer` | core/chain.cpp:121-128 | allocation with count and check as one step |
| `ChainRuntime.Chain.FreeBuffer` | core/chain.cpp:130-137 | the same for freeing |
| `ChainRuntime.Chain.PushPacket` | core/chain.cpp:142-169 | the packet is queued at its entry or freed, never both or neither; it is queued at a null module exactly for connection 0 of the wire |
| `ChainRuntime.Chain.EnqueueModule` | core/chain.cpp:171-221 | queued at the back and counted, or freed without an owner |
| `ChainRuntime.Chain.WritePacketImpl` | core/chain.cpp:352-362 | to the neighbour with 0, or out with the answer of `wire_write` and freed; on a finished chain the packet goes where `ChainRouting.WriteRoutes` says |
| `ChainRuntime.Chain.TakeTask` | core/thread_pool.cpp:49-71 | the oldest task; a cancelled chain only frees its packet |
| `ChainRuntime.Chain.TaskDone` | core/chain.cpp:222-227 | one less in flight |
| `ChainRuntime.Chain.FinishTask` | core/chain.cpp:204-215 | after `process`: right if and only if the packet is not both given away and reported as failed |
| `ChainRuntime.Chain.CopyProcess` | core/modules/copy.cpp:29-51 | move and copy mode: what is held afterwards, what is returned, and that one packet goes on in the same direction |
| `ChainRuntime.Chain.RunCopy` | core/modules/copy.cpp:29-51 | the books stay right if and only if the packet does not leave the chain with `wire_write` failing |
| `ChainRuntime.Chain.SplitProcess` | modules/split/split.cpp:65-123 | every chunk buffer is handed on in direction 0 and the packet freed, also when `malloc` fails half way |
| `ChainRuntime.Chain.RunSplit` | modules/split/split.cpp:65-69 | the packet is leaked if and only if it is empty |
| `ChainRuntime.Chain.MergeProcess` | modules/split/split.cpp:125-225 | slots and store agree, replaced and flushed slots are freed, one packet goes back in direction 1 for every packet completed, and the chunk is freed unless it is empty |
| `ChainRuntime.Chain.RunMerge` | modules/split/split.cpp:125-128 | the chunk is leaked if and only if it is empty |
| `Kernel.AddKeepsIff` | core/kernel.cpp:55-71 | after `add_fd_handler` the epoll set equals the handlers' events if and only if the call names an event or replaces a handler with one |
| `Kernel.ModKeeps` | core/kernel.cpp:73-92 | it equals them after `mod_fd_events` |
| `Kernel.DelKeeps` | core/kernel.cpp:94-97 | it equals them after `del_fd` |
| `Kernel.ModExact` | core/kernel.cpp:73-92 | each bit is set afterwards if and only if it was set or is added, and is not removed; other descriptors are left alone |
| `Kernel.AddExact` | core/kernel.cpp:55-71 | each bit is set afterwards if and only if it was set or is added; other descriptors are left alone |
| `Kernel.DelExact` | core/kernel.cpp:94-97 | the descriptor is gone from both tables, and others are left alone |
| `Kernel.KernelObject.Add` | core/kernel.cpp:55-71 | `add_fd_handler` in place, with the same condition |
| `Kernel.KernelObject.Mod` | core/kernel.cpp:73-92 | `mod_fd_events` in place |
| `Kernel.KernelObject.Del` | core/kernel.cpp:94-97 | `del_fd` in place |
| `Gating.PausedNotRead` | client/client.cpp:1155-1197 | in every reachable state the epoll set equals the events, and writer, chain or overflow pause means EPOLLIN is off |
| `Gating.GateExact` | client/client.cpp:1488-1512 | the bit after a gate pass, exactly: with no pause source it is on |
| `Gating.BackpressureMissed` | client/client.cpp:1488-1512 | a run after which the local chain is congested and EPOLLIN is on |
| `Gating.ApplyKeeps` | client/client.cpp:1155-1197 | every pause, resume, overflow, gate, open and close step keeps the invariant |
| `GatingRuns.FlagsExact` | client/client.cpp:1155-1197 | in every run, from the events alone: a connection exists if and only if it was opened and not closed since, and the flag of writer, chain or overflow is set if and only if the last event of that source for it since then is a pause |
| `GatingRuns.PausedStays` | client/client.cpp:1155-1197 | a connection that one of them paused and did not resume is not read, whatever the others and the gate have done |
| `GatingRuns.GatedExact` | client/client.cpp:1488-1512 | after a gate pass it is read if none has paused it and the local chain is not congested, and not read if one has |
| `GatingRuns.OutExact` | client/client.cpp:1031-1077 | in every run the kernel handles the descriptors of the open connections and no others, and waits to write on one if and only if the last such event for it since it was opened asked for it |
| `GatingObject.ClientConns.HandleOne` | client/client.cpp:1155-1175 | the handler bodies in place, for one connection |
| `GatingObject.ClientConns.HandleAll` | client/client.cpp:1177-1197 | the loops over all connections |
| `GatingObject.ClientConns.CheckOverflow` | client/client.cpp:1362-1387 | the overflow check with its two marks |
| `ChainCodec.ParseChainCreate` | server/session.cpp:488-510 | the parse loop |
| `ChainCodec.ParsePrintIff` | client/client.cpp:881-893 | the server parses back the client's list if and only if every length fits its field |
| `ChainCodec.CutParses` | server/session.cpp:488-510 | a list cut short at any byte is read as exactly the modules that are whole in it |
| `Handshake.HandshakeExact` | server/session.cpp:488-589 | in every joint run, whatever the two constructions do: a running client faces a server that built the client's list if and only if the list fits and the server's construction finished; with extra outputs, every data connection is attached if and only if the server has as many ports |
| `Handshake.HonestPeers` | client/client.cpp:917-942 | with both constructions finished and a list that fits, both hold |
| `Handshake.FailedBuildRuns` | server/session.cpp:512-519 | a run with a server that built nothing: the client runs, with no extra connection attached |
| `Handshake.ServerKeeps` | server/session.cpp:488-589 | every message of the server promises no more than it has done |
| `Handshake.AttachKeeps` | server/session.cpp:890-930 | so does attaching a connection |
| `Handshake.ClientReceivesKeeps` | client/client.cpp:990-1022 | the client runs only on such a promise |
| `Handshake.CanRun` | server/session.cpp:919-929 | such a run exists |
| `HandshakeRuns.QuietMeansRunning` | server/session.cpp:488-589 | with a server that has the modules, a list that fits, two finished constructions and at most 200 extra outputs: in every run, once no message and no connection is on its way, the client runs |
| `HandshakeRuns.RunsOnlyIf` | server/session.cpp:488-589 | a running client faces a server that has all modules and at most 200 extra ports |
| `HandshakeRuns.MissingModuleStops` | server/session.cpp:431-486 | with a module missing the server never gets a chain and the client ends disconnected |
| `HandshakeRuns.AttachEarlyExact` | server/session.cpp:932-955 | a connection that came before the chain is attached with it if it has a place |
| `Limiter.LimiterExact` | modules/limit/limit.zig:163-210 | for all packets, ticks and clock readings, with the configured rate and burst: bytes forwarded by time t are at most burst + rate/8 * (t - time of `init`), tokens never negative, every packet in exactly one of forwarded, queued (at most 100) and dropped, heartbeat armed if and only if something is queued |
| `Limiter.RateBound` | modules/limit/limit.zig:46-63 | bytes forwarded by time t are at most burst + rate/8 * (t - t0) |
| `LimiterRuns.PacketExact` | modules/limit/limit.zig:177-209 | after any run: a packet is forwarded at once if and only if it and all forwarded before it fit into burst + rate/8 * time since `init`; else it is queued last if fewer than 100 are queued, else dropped; the other direction is left alone |
| `LimiterRuns.FirstPacket` | modules/limit/limit.zig:38-61 | the first packet passes at once if and only if it is at most the burst plus what the rate has added since `init` |
| `LimiterRuns.TickExact` | modules/limit/limit.zig:79-90 | a tick forwards from the front of the queue, in order, as many packets as that budget allows, and no more |
| `Limiter.DrainStops` | modules/limit/limit.zig:79-90 | a drain stops only for want of packets or of tokens for the first |
| `Limiter.DrainEmpties` | modules/limit/limit.zig:79-90 | with enough tokens one drain empties the queue in order |
| `Limiter.BurstIsNoCap` | modules/limit/limit.zig:46-53 | after a pause long enough a packet of any size passes at once |
| `LimiterCap.BurstCapsIff` | modules/limit/limit.zig:46-63 | what passes from a moment on is at most burst + rate * time for all traffic if and only if the tokens at that moment are at most the burst |
| `LimiterCap.FewTokensCap` | modules/limit/limit.zig:46-90 | one half: whatever arrives and whenever ticks come |
| `LimiterCap.ManyTokensPass` | modules/limit/limit.zig:46-63 | the other: traffic that breaks the bound |
| `Limiter.DisabledSwallows` | modules/limit/limit.zig:177-181 | nothing happens to a packet if and only if its direction is disabled or it is empty |
| `Limiter.TickKeeps` | core/chain.cpp:305-328 | a tick keeps the heartbeat of the chain and the queues in agreement |
| `LimitCtx.Context.constructor` | modules/limit/limit.zig:103-161 | full buckets, empty queues, no heartbeat, nothing written |
| `LimitCtx.Context.Drain` | modules/limit/limit.zig:79-90 | `drain_dir` in place; direction 0 writes to output 1 and direction 1 to output 0, just what they forward |
| `LimitCtx.Context.Update` | modules/limit/limit.zig:92-101 | `update_heartbeat` in place |
| `LimitCtx.Context.OnTick` | modules/limit/limit.zig:167-175 | a heartbeat tick in place, with the same outputs |
| `LimitCtx.Context.OnPacket` | modules/limit/limit.zig:177-209 | a packet in place, with the same outputs; a forwarded one returns the answer of `write_packet` |
| `Rle.DecodeExact` | modules/compress/rle_impl.nim:56-132 | for every token stream, runs of length 0 included, the size is the expanded length and decoding yields the expansion |
| `Rle.OverrunIff` | modules/compress/rle_impl.nim:98-114 | decoding writes past a destination of given size if and only if a run of length 0 is met with the destination full |
| `Rle.CompressedRuns` | modules/compress/rle_impl.nim:7-45 | compression writes no run of length 0 |
| `Rle.DecodeStored` | modules/compress/rle_impl.nim:76-90 | the stored form |
| `Rle.OutputBound` | modules/compress/rle_impl.nim:7-45 | at most 2n + 2 bytes for n |
| `Rle.RoundTripIff` | modules/compress/rle_impl.nim:7-54 | decompression undoes compression if and only if the input is stored or no short run is followed by another |
| `Rle.LossExample` | modules/compress/rle_impl.nim:24-45 | "ab" followed by a run loses the second byte |
| `RleBuffers.FillRun` | modules/compress/rle_impl.nim:105-113 | the doubling fill equals replication; it overruns exactly for length 0 at the end |
| `RleBuffers.WriteTokens` | modules/compress/rle_impl.nim:7-45 | fails exactly when the output does not fit |
| `RleBuffers.RleCompress` | modules/compress/rle_impl.nim:1-54 | never fails with 2n + 64 bytes, for any input |
| `RleBuffers.RleDecompressSize` | modules/compress/rle_impl.nim:56-81 | computes the size, 0 on malformed input |
| `RleBuffers.RleDecompress` | modules/compress/rle_impl.nim:83-132 | the decoded bytes, or -1 exactly on malformed input or too small a destination, and whether it overran |

## Left out

- The client's `read_buf` after a read that returns 0 or less, which is not shrunk back (client/client.cpp:124-126): reads are successful ones.
- Sockets, connecting, address lookup, loading of modules, logging, option parsing and reconnect timers.
- Authentication digests, ciphers, base64, zstd and the other codecs: a codec is any decoder with an encoder that writes something it decodes to the input. Codecs with state across packets are not covered.
- `process_wire_buffer` in client and session, which uses another layout and skips the control numbers.
- Pausing and resuming a whole session, replay from server to client, and the client's read buffer across a reconnect.
- `alloc_conn_id`: its loop does not advance when the id is taken, so no useful guarantee holds.
- First in first out through the limiter: a small packet may pass queued ones.
- Overflow of a 64-bit length sum in `try_parse`, and of the `int` round-robin counter of `send_control`.
- Interleavings inside one allocation or free with its backpressure check: each is one step.
- The debounced sending of chain pause and resume messages, and the pause callbacks, which only wake the event loop.
- EndToEndRuns.EndToEndExact: chunks reach the merging side within its window, a condition on the run; `EndToEndPaced.PacedExact` has a condition on the sender instead. Failing allocations are not part of it.
- ChainFlow.FlowExact: one worker per side, since a second one can reorder packets (`PlainChain.WorkersIff`); at most one module asks for outputs.
- PlainChain.PlainExact: on configuration indices only; without `split` the tree is a single row.
- ChainRuntime.Chain.SplitProcess: which outputs the chunks go to is a parameter here; `SplitContext` proves that they are taken in turn.
- ChainSchedule.FlowIsRun: the merging module's own store is not part of these runs; `ChainRuntime` keeps its books.
- ChainRuntime.Chain.MergeProcess: which slots a chunk completes is a parameter here; `SplitContext` and `SplitMerge` prove which they are. Allocation is assumed to succeed in it, because the source copies into the result unchecked.
- Handshake handlers and the gating of the session's targets are modelled on values, once for both sides.
- WriteBuffer frames are not empty, as all frames of the protocol are.
- SplitContext.Context.ProcessMerge: requires exactly that the call returns, since Dafny has no result for one that does not; `Merge.LoopEndsIff` and `MergeHang.ReturnsIff` say when that is, and split traffic always meets it.
- SplitContext.Context.FlushReady: the same condition.
- MergeHang.ReturnsIff: tables in which a full packet runs over into the keys of the packet with the next high bits are covered by `Merge.LoopEndsIff` only.
- Flushing.FlushExact: sockets that do not fail; after a failure the source reports success with frames still queued.
- HandshakeRuns.QuietMeansRunning: every connection that the client dials reaches the server; failing to connect is not modelled.
- LimiterRuns.TickExact: all readings of the clock during one tick are the same time.
- Tearing.RunTearsIff: a socket that has failed takes no byte again, as TCP sockets behave.
- SplitContext.Context.ProcessSplit: packets have at most 2^31 - 1 bytes, because the source keeps lengths in an `int`.
