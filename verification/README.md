# Verified models of a transport toolkit

This Dafny project models the stateful components of the Pion transport library and proves what they
promise over every input and every run. Classes and methods follow the Go methods that run under a mutex;
protocols between goroutines are step functions over all interleavings, built from the functions that the
methods are proved against or tied to them (`PingPongRuns.FlushStepsMatch`, `NetChecks.ChecksFollowLoop`).

- **Replay detection** (`Word64`, `FixedBig`, `ReplayWindow`, `WrappedWindow`): the multi-word shift
  register is a truncated shift of a set of bits; the two sliding windows (section 4.1.2.6 of RFC 6347 and
  section 3.3.2 of RFC 3711) decide as a plain set of accepted numbers does.
- **Packet buffer** (`PacketFormat`, `RingCopies`, `PacketBuffer`, `BufferWakeup`): two growing rings that
  together are a bounded FIFO queue, and the wake-up protocol of its readers.
- **Batched writes** (`MessageBatches`, `PingPongCore`, `PingPongRuns`, `PingPongAddresses`,
  `PingPongWriters`): two alternating batches between many writers and one flusher.
- **NAT** (`NatModel`, `NatTable`, `NatRuns`, `NatProperties`, `NatBehaviour`): two indexes over shared mapping
  objects with lazy expiry refine one plain table; what each chunk meets, by the behaviours of sections 4 and
  5 of RFC 4787, is stated in terms of the chunks that went before it.
- **Deadlines** (`Deadlines`, `DeadlineRuns`, `JsTimers`, `WasmDeadlines`): a deadline racing with late timer
  callbacks, the wasm timer as an implementation of the timer contract, and the two together.
- **Interface changes** (`NetState`, `NetDiff`, `NetDetector`, `NetRuns`, `NetChecks`): exact snapshot
  differences and a sticky notification flag.
- **Packet loss** (`LossFilters`, `LossRuns`): exact drop counts per shuffled block.

Clocks, random choices, operating-system answers, socket writes and cancelled contexts are parameters.
`Option` is in `Options`. In runs, a step that is not enabled when its turn comes does nothing, so every
list of steps is a run.

Properties that do not hold in general are stated with their exact condition:

- replay protection of the non-wrapping window holds if and only if the window is no wider than the number
  range (`ReplayWindow.ReplaySafeIff`, counterexample `ReplayWindow.WideWindowReplays`);
- the wrapped distance is exact if and only if it lies in the half range (`WrappedWindow.DiffExactIff`), the
  64-bit arithmetic behind it decodes that range if and only if maxSeq is below 2^63 or equal to 2^64 - 1
  (`WrappedWindow.HalfRangeDecodedIff`), and with fewer than five sequence numbers the first packet can be
  refused (`WrappedWindow.FirstCheckPasses`);
- a full batch is always signalled if and only if the batch size is positive
  (`PingPongRuns.FullBatchIsSignalledIff`);
- batched messages always leave with the address they were given, or with none, if and only if messages with
  and without an address are not mixed (`PingPongAddresses.AsGivenIff`, counterexample
  `PingPongAddresses.MixedRunGoesAstray`);
- the 8-bit `pending` counter lets some callback of a run fire early, with others outstanding, if and only if
  some callback of that run leaves a positive multiple of 256 others to a started deadline
  (`DeadlineRuns.FiresEarlyIff`); a bound on the outstanding timers and callbacks rules this out if and only
  if it is at most 256 (`DeadlineRuns.BoundIsSafeIff`, counterexample `DeadlineRuns.FiresEarlyAt257`). After an
  early firing the count can stay wrong, and later callbacks fire at other numbers
  (`DeadlineRuns.CountStaysWrong`); over every run `DeadlineRuns.CallbackFiresIff` says at which;
- a snapshot compared with itself reports nothing if and only if no interface index occurs twice in it
  (`NetDiff.SelfDiffEmptyIff`);
- 1:1 translation returns to every sender if and only if the pairing is unambiguous
  (`NatProperties.OneToOneReturnsIff`).

`dafny verify dfyconfig.toml` checks the whole project.

## Model

| member | source | states |
|---|---|---|
| `FixedBig.FixedBigInt.constructor` | replaydetector/fixedbig.go:19-27 | a new integer of any width has no one bit |
| `FixedBig.FixedBigInt.Lsh` | replaydetector/fixedbig.go:30-48 | for every width and count, the one bits afterwards are exactly the old ones moved up by the count, those past the width dropped; in place, across words, for counts that are multiples of 64 or exceed the width |
| `FixedBig.FixedBigInt.BitSet` | replaydetector/fixedbig.go:51-62 | reads membership in the set of one bits; false beyond the width |
| `FixedBig.FixedBigInt.SetBit` | replaydetector/fixedbig.go:65-72 | adds one position to the set of one bits; nothing beyond the width |
| `FixedBig.CarryBit` | replaydetector/fixedbig.go:39-44 | the carry into a word holds, at every bit, the bit the count places further down, across the word border |
| `FixedBig.ShiftOnes` | replaydetector/fixedbig.go:37-47 | words built by the loop and the top mask have the truncated shift as their set of one bits |
| `FixedBig.TopMaskBit` | replaydetector/fixedbig.go:25 | the mask keeps exactly the bits of the last word that lie below the width |
| `ReplayWindow.SlidingWindowDetector.constructor` | replaydetector/replaydetector.go:78-84 | starts at 0 with an empty window |
| `ReplayWindow.SlidingWindowDetector.CheckSeq` | replaydetector/replaydetector.go:96-129 | the token says whether the number is in range and newer than the newest, or inside the window with its bit unset; the state is untouched |
| `ReplayWindow.SlidingWindowDetector.Accept` | replaydetector/replaydetector.go:104-143 | the new state and answer of the bit-level detector are those of the window seen as a set; a rejected token does nothing |
| `ReplayWindow.RunRefines` | replaydetector/replaydetector.go:112-143 | after every run with late, repeated and out-of-order accepts, bit i is set exactly when newest - i was accepted and i is inside the window, and newest is the head of the history |
| `ReplayWindow.HeadIsMaximum` | replaydetector/replaydetector.go:133-138 | the head of the history is the largest accepted number, or 0 if there is none |
| `ReplayWindow.CheckDecidesAsReference` | replaydetector/replaydetector.go:112-129 | after every run a check passes exactly if the set of accepted numbers allows it |
| `ReplayWindow.AcceptReportsNewMaximum` | replaydetector/replaydetector.go:131-143 | accept answers true exactly on a number above all accepted ones; with a window of size 0 also on a repeated 0 |
| `ReplayWindow.AcceptedNeverPassesAgain` | replaydetector/replaydetector.go:118-126 | a number accepted anywhere in a run fails every later check |
| `ReplayWindow.WideWindowReplays` | replaydetector/replaydetector.go:139-140 | for every window wider than the range, an honest run accepts 0 and then lets 0 pass again: the remainder by maxSeq puts distance maxSeq onto bit 0 |
| `ReplayWindow.ReplaySafeIff` | replaydetector/replaydetector.go:112-143 | no honest run replays an accepted number if and only if windowSize <= maxSeq |
| `WrappedWindow.WrappedSlidingWindowDetector.constructor` | replaydetector/replaydetector.go:147-153 | starts uninitialised with an empty window |
| `WrappedWindow.WrappedSlidingWindowDetector.CheckSeq` | replaydetector/replaydetector.go:177-224 | decides by the wrapped distance and the window bit; the first in-range number places the head just before itself; out-of-range numbers change nothing |
| `WrappedWindow.WrappedSlidingWindowDetector.Accept` | replaydetector/replaydetector.go:185-238 | the new state and answer use the distance at accept time; a rejected token does nothing |
| `WrappedWindow.DiffExactIff` | replaydetector/replaydetector.go:243-253 | a true distance is decoded correctly at every head position if and only if -floor(maxSeq/2) < distance <= floor(maxSeq/2), for maxSeq from 2 to 2^63 - 1, and if and only if -2^63 <= distance < 2^63 for maxSeq = 2^64 - 1 |
| `WrappedWindow.HalfRangeDecodedIff` | replaydetector/replaydetector.go:243-253 | in 64-bit arithmetic with overflow, for maxSeq >= 2, the whole half range is decoded at every head if and only if maxSeq < 2^63 or maxSeq = 2^64 - 1 |
| `WrappedWindow.FirstCheckPasses` | replaydetector/replaydetector.go:201-208 | exactly when the first number checked passes, for each maxSeq that the 64-bit arithmetic supports; for maxSeq >= 4 it always does, one ahead of the head |
| `WrappedWindow.WrapRunRefines` | replaydetector/replaydetector.go:177-253 | over every run in which indices stay in the half range around the head, the wire-level detector represents the unwrapped set-based window, for every window size |
| `WrappedWindow.DecidesAsReference` | replaydetector/replaydetector.go:196-238 | after such a run checks decide as the unwrapped window does, and accept answers true exactly for indices ahead of its head |
| `WrappedWindow.AcceptedIndexNeverPasses` | replaydetector/replaydetector.go:210-221 | an accepted index that is still in the half range never passes again |
| `WrappedWindow.StrayIsInert` | replaydetector/replaydetector.go:197-200 | after any run a number beyond maxSeq is rejected and leaves the run as it was, started or not |
| `PacketFormat.DecodeEncode` | packetio/buffer.go:191-195 | reading the bytes as two-byte big-endian length frames gives back exactly the queued payloads |
| `PacketFormat.EncodedSize` | packetio/buffer.go:355-372 | the framed bytes are two per packet more than the payloads |
| `PacketFormat.RingAppend` | packetio/buffer.go:288-295 | bytes placed after the end of a ring, going round the array, extend its contents by exactly those bytes |
| `RingCopies.Copy` | packetio/buffer.go:142-146 | what Go copy leaves in the destination |
| `RingCopies.Unroll` | packetio/buffer.go:139-150 | growing copies the ring, contiguous or wrapped, to the front of the new array |
| `RingCopies.Rotate` | packetio/buffer.go:281-285 | the full attribute ring is copied in order to the front of the new one |
| `RingCopies.Append` | packetio/buffer.go:289-295 | appends to the ring contents, also across the end of the array |
| `RingCopies.Take` | packetio/buffer.go:299-313 | gives the first bytes, as many as fit, leaves the rest of the destination alone and drops all of the requested size |
| `PacketBuffer.CanGrow` | packetio/buffer.go:114-135 | a capacity within the effective limit always grows, to the doubled or quarter larger size, at least 2048, cut at the limit plus the free byte, for both values of sizeHardLimit |
| `PacketBuffer.WriteExactly` | packetio/buffer.go:162-182 | too big above 65535 bytes, else closed, else full exactly if the queue with the packet would exceed a positive count limit or the size limit (4194303 if none is set, or with the hard limit from 4194304 on), else appended; a refused write changes nothing |
| `PacketBuffer.TakeHeader` | packetio/buffer.go:249-251 | reads the big-endian length at the head and drops its two bytes |
| `PacketBuffer.Buffer.constructor` | packetio/buffer.go:94-99 | an empty, open, unlimited buffer |
| `PacketBuffer.Buffer.RingsDecode` | packetio/buffer.go:67-81 | the two rings alone, without the ghost queue, decode to the queued payloads and attributes |
| `PacketBuffer.Buffer.Size` | packetio/buffer.go:358-372 | equals the payload bytes plus two per packet of the queue |
| `PacketBuffer.Buffer.Count` | packetio/buffer.go:338-343 | equals the length of the queue |
| `PacketBuffer.Buffer.Available` | packetio/buffer.go:103-110 | true exactly if the framed packet fits with one byte to spare |
| `PacketBuffer.Buffer.Grow` | packetio/buffer.go:114-153 | succeeds exactly if the next capacity is larger; the queue is unchanged across the move, and a failure changes nothing |
| `PacketBuffer.Buffer.GrowAttributes` | packetio/buffer.go:277-286 | there is room for one more list and the queue is unchanged |
| `PacketBuffer.Buffer.MakeRoom` | packetio/buffer.go:184-189 | after the limit test the loop terminates with room and grow never fails, whatever limits were set before |
| `PacketBuffer.Buffer.Write` | packetio/buffer.go:162-205 | the queue and result are those of a bounded FIFO; a packet is accepted if and only if it has at most 65535 bytes, the buffer is open and the longer queue is within its limits; rejected writes change nothing |
| `PacketBuffer.Buffer.Enqueue` | packetio/buffer.go:191-202 | appends one packet to the queue through both rings and leaves a token |
| `PacketBuffer.Buffer.PushAttributes` | packetio/buffer.go:196-201 | puts one list at the end of the attribute ring |
| `PacketBuffer.Buffer.PopAttributes` | packetio/buffer.go:253-261 | takes the first list off the attribute ring |
| `PacketBuffer.Buffer.ReadFrame` | packetio/buffer.go:249-252 | takes the first frame off the byte ring, the payload truncated to the destination |
| `PacketBuffer.Buffer.TakeFirst` | packetio/buffer.go:248-261 | takes the first packet off both rings, its payload truncated to the destination |
| `PacketBuffer.Buffer.ConsumePacket` | packetio/buffer.go:248-274 | removes the first packet, returns its payload prefix and all its attributes, short buffer exactly if truncated; wakes the next reader if packets remain and the buffer is open |
| `PacketBuffer.Buffer.Read` | packetio/buffer.go:222-237 | one pass under the mutex behaves as the FIFO: first packet, EOF exactly if closed and empty, otherwise wait |
| `PacketBuffer.Buffer.NotifyReader` | packetio/buffer.go:316-321 | leaves a token; its precondition, an open channel, is proved at every call |
| `PacketBuffer.Buffer.CloseNotify` | packetio/buffer.go:331 | closes the channel; that it is not closed already is proved at the call |
| `PacketBuffer.Buffer.Close` | packetio/buffer.go:325-335 | closed, with the queue still readable |
| `PacketBuffer.Buffer.SetLimitCount` | packetio/buffer.go:348-353 | changes the count limit and nothing else |
| `PacketBuffer.Buffer.SetLimitSize` | packetio/buffer.go:379-384 | changes the size limit and nothing else |
| `BufferWakeup.AlwaysInv` | packetio/buffer.go:213-335 | in every interleaving of readers, writers, timeouts, limit changes and close: while open and nonempty a token is queued or a woken reader has yet to lock; written packets are the delivered ones followed by the queue; EOF was returned only if closed and drained |
| `BufferWakeup.WaitingReaderIsServed` | packetio/buffer.go:239-243 | when a reader waits while packets are queued or after close, at most two reader steps end some read with the next packet or EOF |
| `BufferWakeup.EofIsFinal` | packetio/buffer.go:232-236 | after an EOF no continuation of the run delivers or accepts a packet |
| `BufferWakeup.LeavesExactly` | packetio/buffer.go:222-246 | a reader leaves exactly when it gives up or finds a packet or a closed queue under the lock, with that packet or EOF; otherwise it waits |
| `BufferWakeup.LimitsHold` | packetio/buffer.go:176-182 | from a change of the limits to the next one, in every run, the queue never holds more packets or bytes than they allow, or than it held at the change |
| `BufferWakeup.LimitsAlwaysHold` | packetio/buffer.go:348-384 | limits set before use hold after every run |
| `BufferWakeup.ClosedIff` | packetio/buffer.go:325-335 | the buffer is closed exactly if the run closed it |
| `BufferWakeup.WokenByToken` | packetio/buffer.go:239-243 | a reader counts as woken only through a token it has taken |
| `BufferWakeup.TokensWakeOnce` | packetio/buffer.go:316-321 | in every run the wake-ups of an open buffer and the queued token are no more than the tokens posted |
| `MessageBatches.MessageBatch.constructor` | udp/batchconn.go:46-61 | an empty batch |
| `MessageBatches.MessageBatch.IsFull` | udp/batchconn.go:63-65 | true exactly if the batch holds size messages |
| `MessageBatches.MessageBatch.EnqueueMessage` | udp/batchconn.go:67-93 | appends the message, its buffers concatenating to the payload also beyond 1500 bytes, or stores nothing if it is empty or the batch is full; a nil address keeps the slot address, any other replaces it |
| `MessageBatches.MessageBatch.Flush` | udp/batchconn.go:95-109 | hands over, in order, exactly the messages that the WriteBatch calls take before the first error, going on after calls that take none, and leaves the batch empty |
| `MessageBatches.FlushedIsMinimum` | udp/batchconn.go:99-106 | the messages that get out are as many as the calls take together, at most all of them |
| `PingPongCore.PingPong.constructor` | udp/batchconn.go:128-142 | two empty batches, nothing pending |
| `PingPongCore.PingPong.TryEnqueue` | udp/batchconn.go:163-172 | one attempt under the mutex, with or without a remote address: stored in the write batch, done at once if empty, or wait on the current swap channel |
| `PingPongCore.PingPong.UpdateWriteBatchAndGetReadBatch` | udp/batchconn.go:201-216 | swaps the write batch and replaces the swap channel, or returns nothing exactly if a flush is pending |
| `PingPongCore.PingPong.UpdateReadBatch` | udp/batchconn.go:218-228 | gives the batch back |
| `PingPongRuns.AlwaysInv` | udp/batchconn.go:144-263 | all invariants below hold after every interleaving of writers, flusher, ticks, write errors and Close, for batch sizes of at least one |
| `PingPongRuns.BatchesNeverShared` | udp/batchconn.go:193-228 | flushPending holds exactly when the indices differ, the flusher works on a batch only then, and getWriteBatch never returns nil |
| `PingPongRuns.NothingLostOrReordered` | udp/batchconn.go:67-109 | without write errors, messages sent, the rest of the read batch and the write batch are exactly the accepted nonempty messages in order, with their payloads and the addresses they were given |
| `PingPongRuns.SentInOrder` | udp/batchconn.go:95-109 | with write errors, what is sent is an order-preserving subsequence of what was accepted |
| `PingPongRuns.SwapChannelsClosedOnce` | udp/batchconn.go:212-213 | no swap channel is closed twice, and the closed ones are exactly those replaced or left by the exited flusher |
| `PingPongRuns.FullBatchIsSignalledIff` | udp/batchconn.go:182-188 | while open a full write batch has a queued token, a signalling writer or a woken flusher, after every run, if and only if the batch size is at least one |
| `PingPongRuns.TrySignalsIff` | udp/batchconn.go:163-188 | a try ends with the writer signalling exactly if it leaves the write batch full, with the writer gone if not, and blocked exactly if the batch was full |
| `PingPongRuns.BlockedWriterReleasable` | udp/batchconn.go:170-172 | a writer waiting on a swap channel is released by at most seven moves that flusher, signallers and closers always have |
| `PingPongRuns.CloseEndsFlusher` | udp/batchconn.go:144-153 | after Close the flusher exits within eight such moves |
| `PingPongRuns.ExitedReleasesWriters` | udp/batchconn.go:230-238 | once the flusher is gone every waiting writer wakes and leaves |
| `PingPongRuns.NothingSentAfterExit` | udp/batchconn.go:244-263 | Close does not flush: after the flusher has left its loop nothing more is sent |
| `PingPongRuns.LeftBehind` | udp/batchconn.go:230-263 | without write errors, what is never sent is exactly the write batch the flusher leaves behind: the accepted messages after the last one sent |
| `PingPongRuns.EverythingDeliverable` | udp/batchconn.go:230-263 | from every reachable open state, at most seven moves of the flusher alone, with at most one elapsed interval and no write error, send everything under way |
| `PingPongRuns.AcceptedDeliverable` | udp/batchconn.go:155-263 | after every open run without write errors, such moves make the sent messages exactly the accepted ones, in order |
| `PingPongAddresses.OneKindKeeps` | udp/batchconn.go:80-82 | in every run in which all messages have an address, or none has, each message out or under way is the one that was given |
| `PingPongAddresses.MixedRunGoesAstray` | udp/batchconn.go:80-82 | for every batch size, a run in which a message without an address takes that of an earlier one |
| `PingPongAddresses.AsGivenIff` | udp/batchconn.go:67-93 | all runs keep the addresses if and only if messages with and without one are not mixed |
| `PingPongWriters.NoneGivenUp` | udp/batchconn.go:155-191 | after every run that left the connection open, each nonempty message has arrived exactly as often as it was accepted or is held by a writer that still tries |
| `PingPongWriters.WriterGetsThrough` | udp/batchconn.go:162-180 | while open, at most thirteen moves of the writer, the flusher and signalling writers get any waiting writer's own message accepted |
| `PingPongWriters.ClosedIff` | udp/batchconn.go:144-145 | the connection is closed exactly if the run called Close |
| `PingPongWriters.WokenByReason` | udp/batchconn.go:244-258 | the flusher takes a batch only after a signal or an elapsed interval |
| `PingPongWriters.SignalsWakeOnce` | udp/batchconn.go:130-131 | each signal of a writer or of Close wakes the flusher at most once |
| `PingPongRuns.FlushStepsMatch` | udp/batchconn.go:95-109 | whatever WriteBatch does, flush steps of the protocol send exactly what the batch method sends, empty the batch, and record a failure exactly if something was left |
| `NatModel.Checked` | vnet/nat.go:100-133 | accepted exactly in normal mode or with equally many mapped and local addresses, at least one; 1:1 mode gets endpoint-independent behaviours and lifetime 0, normal mode keeps its behaviours and gets the default for lifetime 0 |
| `NatTable.NewNAT` | vnet/nat.go:100-133 | an empty translator for the checked configuration, or none with the error |
| `NatModel.SameKeyIff` | vnet/nat.go:163-179 | two remotes have the same key if and only if the behaviour treats them alike: all of them, equal address, or equal address and port |
| `NatModel.OutboundPorts` | vnet/nat.go:185-189 | every binding keeps a port that was taken for its own key, within the port range |
| `NatModel.OwnerDecides` | vnet/nat.go:295-329 | an external address has one owner, and that binding alone decides an inbound chunk |
| `NatTable.Translator.constructor` | vnet/nat.go:124-132 | empty indexes |
| `NatTable.Translator.RemoveMapping` | vnet/nat.go:414-420 | the mapping leaves both indexes, which stay consistent under keys rebuilt from the mapping |
| `NatTable.Translator.AddMapping` | vnet/nat.go:200-207 | a mapping with new keys enters both indexes |
| `NatTable.Translator.FindOutboundMapping` | vnet/nat.go:378-393 | a live mapping is returned and extended; an expired one is removed; nothing else changes |
| `NatTable.Translator.FindInboundMapping` | vnet/nat.go:396-411 | a live mapping is returned unchanged; an expired one is removed |
| `NatTable.Translator.PermitAccess` | vnet/nat.go:208-211 | adds one remote key to the mapping, seen through both indexes |
| `NatTable.Translator.CreateMapping` | vnet/nat.go:184-207 | a mapping on the next port of its protocol with one remote key, or none exactly if that port exceeds 65535 |
| `NatTable.Translator.NextPortIsFree` | vnet/nat.go:185-191 | the next port is in no index |
| `NatTable.Translator.TranslateOutboundNAPT` | vnet/nat.go:161-218 | table and result are those of the plain lookup table |
| `NatTable.Translator.TranslateInboundNAPT` | vnet/nat.go:295-329 | table and result are those of the plain lookup table; only an expired row goes away |
| `NatTable.Translator.GetPairedMappedIP` | vnet/nat.go:135-143 | the mapped address at the first place of the local one, or none |
| `NatTable.Translator.GetPairedLocalIP` | vnet/nat.go:145-153 | the local address at the first place of the mapped one, or none |
| `NatTable.Translator.TranslateOutbound` | vnet/nat.go:155-275 | both modes and the unsupported protocol; the indexes stay consistent |
| `NatTable.Translator.TranslateInbound` | vnet/nat.go:277-375 | both modes and the unsupported protocol; the indexes stay consistent |
| `NatRuns.OutboundRefines` | vnet/nat.go:161-218 | lookup, extension, lazy removal and creation in the table give the result and state of the model |
| `NatRuns.InboundRefines` | vnet/nat.go:295-329 | lazy removal on inbound lookups gives the result of the model, whose bindings do not change |
| `NatRuns.TableRunRefines` | vnet/nat.go:155-420 | after every history with a monotone clock the table represents the model and each result is the model result |
| `NatProperties.RoundTrip` | vnet/nat.go:155-420 | if X to Y became E to Y at time t, then Y to E at any time up to t plus the lifetime becomes Y to X, whatever is translated in between, for every mapping and filtering behaviour, both protocols and any lifetime |
| `NatProperties.BuiltRoundTrip` | vnet/nat.go:155-420 | the same of the results that the two-index table gives |
| `NatProperties.ResultTaken` | vnet/nat.go:185-195 | an external address lies in 0xC000-0xFFFF for UDP and 0x8000-0xFFFF for TCP and was taken for the key of its chunk |
| `NatProperties.RunRemembers` | vnet/nat.go:191-211 | after every history each usable binding was made on the port next at its creation, served every call with its key since, expires one lifetime after the last of them, and has exactly their remotes as filters |
| `NatProperties.AdmitsPermitted` | vnet/nat.go:302-314 | a live binding admits an inbound chunk exactly if some outbound chunk since its creation had the same filter key |
| `NatProperties.SameAddressSameKey` | vnet/nat.go:181-195 | two calls of a protocol given the same external address have the same key, also across expiry: ports are never reused |
| `NatProperties.SharedIffKept` | vnet/nat.go:163-211 | two outbound chunks of a protocol share an external address if and only if their mapping keys agree and each call with that key in between comes within one lifetime of the previous one |
| `NatBehaviour.SharedExactly` | vnet/nat.go:163-211 | two outbound chunks of a protocol share an external address if and only if they have the same source and remotes that are alike for the mapping behaviour, and each call for that mapping in between comes within one lifetime of the previous one |
| `NatBehaviour.OutboundExactly` | vnet/nat.go:161-218 | an outbound chunk gets the address of any earlier call that still serves it; else, while a port of its range is left, one that no call of the protocol had; else the ports are exhausted |
| `NatBehaviour.ExhaustedIff` | vnet/nat.go:185-189 | the ports have run out exactly if each port from 0xC000 (UDP) or 0x8000 (TCP) to 65535 was given to some call |
| `NatBehaviour.InboundExactly` | vnet/nat.go:295-329 | an inbound chunk meets no binding exactly if no outbound call was given its destination within the lifetime; else it goes to the source of those calls if one of them went to a remote that is alike for the filtering behaviour, and is refused if none did |
| `NatBehaviour.UnsupportedExactly` | vnet/nat.go:220-275 | exactly the chunks of other protocols are unsupported, in both modes and directions |
| `NatBehaviour.OneToOneExactly` | vnet/nat.go:135-153 | in 1:1 mode a chunk is translated exactly if its address is listed, to the address at the first such place, keeping the port |
| `NatProperties.SharedIffLive` | vnet/nat.go:163-211 | the same in terms of the binding: it is live at the second call and was made no later than the first |
| `NatProperties.BuiltResult` | vnet/nat.go:161-218 | each outbound result of the two-index table is that of the model |
| `NatProperties.BuiltInboundResult` | vnet/nat.go:295-329 | each inbound result of the two-index table is that of the model |
| `NatProperties.OneToOneReturnsIff` | vnet/nat.go:222-234 | in 1:1 mode every chunk returns to its sender if and only if no local address is paired, at its first place, with an external one listed earlier |
| `NatProperties.DuplicateFreeReturns` | vnet/nat.go:135-153 | duplicate-free external addresses are enough |
| `Deadlines.TimerObject.Stop` | deadline/deadline.go:106 | the timer contract: true exactly if it was armed, and not armed afterwards |
| `Deadlines.TimerObject.Reset` | deadline/deadline.go:129 | the timer contract: armed afterwards |
| `Deadlines.DeadlineObject.constructor` | deadline/deadline.go:45-49 | suspended, nothing pending, done open |
| `Deadlines.DeadlineObject.CloseDone` | deadline/deadline.go:71 | closes the done channel; that it is open is proved at every call |
| `Deadlines.DeadlineObject.DoFire` | deadline/deadline.go:69-77 | exceeded, done closed, the context taken out and handed to the caller |
| `Deadlines.DeadlineObject.Timeout` | deadline/deadline.go:51-65 | decrements pending as a uint8 and fires only if nothing else is pending and the deadline is started |
| `Deadlines.DeadlineObject.Set` | deadline/deadline.go:102-138 | the whole new state for the zero time, a future time and a past one |
| `Deadlines.DeadlineObject.GetContext` | deadline/deadline.go:81-93 | the shared exceeded context, the current one, or a new one that becomes current |
| `Deadlines.DeadlineObject.Err` | deadline/deadline.go:150-158 | reports exceeded exactly if the done channel is closed |
| `DeadlineRuns.BoundedRunInv` | deadline/deadline.go:51-138 | in every interleaving with at most 256 outstanding timers and callbacks, pending is their number and a started deadline has at least one |
| `DeadlineRuns.SignalInv` | deadline/deadline.go:51-138 | in every interleaving each Set fires at most once, the deadline is exceeded exactly if the latest Set has fired, the current done channel is closed exactly if exceeded, no channel is closed twice, and every context handed out is current or was taken by exactly one firing |
| `DeadlineRuns.CallbackFiresInTime` | deadline/deadline.go:51-65 | with at most 256 outstanding, a callback fires exactly if the deadline is started, its timer is not armed and no other callback is in flight; then the latest Set has expired and had not fired |
| `DeadlineRuns.QuiescentIsDecided` | deadline/deadline.go:51-65 | in every run without an early firing, when nothing is armed or in flight the deadline is not left started: no expiry is lost |
| `DeadlineRuns.ExtendKeepsSignals` | deadline/deadline.go:102-133 | extending or suspending an unexpired deadline keeps its context and its open channel |
| `DeadlineRuns.ContextAnswer` | deadline/deadline.go:81-93 | after every run Context answers the shared cancelled context if and only if the latest Set has fired; otherwise an own one that no firing has taken and that is current afterwards |
| `DeadlineRuns.SameContext` | deadline/deadline.go:85-92 | two Context calls with no firing between them give the same context, whatever extends or suspends the deadline meanwhile |
| `DeadlineRuns.StaysExceeded` | deadline/deadline.go:85-87 | once exceeded, Context answers the shared context until the next Set |
| `DeadlineRuns.CountUntilEarly` | deadline/deadline.go:51-138 | pending is right up to the first early firing of a run, however much is outstanding |
| `DeadlineRuns.CallbackFiresIff` | deadline/deadline.go:51-138 | in every run, unbounded, a callback fires exactly if the deadline is started and the other outstanding ones together with the armings lost so far are a multiple of 256 |
| `DeadlineRuns.FiresEarlyIff` | deadline/deadline.go:53-59 | some callback of a run fires with others outstanding if and only if some callback of it leaves a positive multiple of 256 others to a started deadline |
| `DeadlineRuns.BoundIsSafeIff` | deadline/deadline.go:53-59 | a bound on the outstanding timers and callbacks keeps every run from firing early if and only if it is at most 256 |
| `DeadlineRuns.CountStaysWrong` | deadline/deadline.go:106-137 | a run on which, after an early firing, a Set arms a timer that is still armed and a callback then fires with 255 others outstanding |
| `DeadlineRuns.FiresEarlyAt257` | deadline/deadline.go:53 | a run of 256 held-up callbacks after which the next Set is reported exceeded while its timer is armed |
| `JsTimers.JsTimer.constructor` | deadline/timer_js.go:23-27 | a timer that has been reset once |
| `JsTimers.JsTimer.Stop` | deadline/timer_js.go:29-39 | a new version, not started, the runtime timer stopped; answers whether it was started |
| `JsTimers.JsTimer.Reset` | deadline/timer_js.go:41-67 | a new version, started, the old runtime timer stopped and a new one made; answers whether it was started |
| `JsTimers.JsTimer.Callback` | deadline/timer_js.go:51-62 | goes on to call f exactly if its version is current |
| `JsTimers.AlwaysInv` | deadline/timer_js.go:23-67 | in every interleaving with late runtime callbacks, started says exactly that the latest arming has neither committed nor been stopped |
| `JsTimers.StepSimulates` | deadline/timer_js.go:23-67 | each step of the wasm timer is a step of the timer contract |
| `JsTimers.StopAnswers` | deadline/timer_js.go:29-39 | Stop answers true exactly if the latest arming has neither committed to calling f nor been stopped; no arming commits twice |
| `JsTimers.EndedArmingNeverCalls` | deadline/timer_js.go:51-56 | after Stop or Reset, whatever commits later belongs to a newer arming |
| `JsTimers.DeadlineFollowsContract` | deadline/deadline.go:102-138 | each step of the deadline uses its timer only in ways the contract allows |
| `WasmDeadlines.WasmRunRefines` | deadline/deadline.go:51-138 | every run of a deadline on the wasm timer, with late runtime callbacks and old versions, is a run of the deadline on a timer that keeps the contract |
| `WasmDeadlines.WasmSignals` | deadline/timer_js.go:23-67 | so the firing, channel and context properties hold on wasm, and up to 256 outstanding nothing fires early |
| `NetState.SortSorts` | netchange/detector.go:327-329 | sorting keeps the interfaces and orders them strictly by index |
| `NetState.SortedUnique` | netchange/detector.go:327-329 | with unique indices every correct sorting gives the same list |
| `NetState.NormalIsSorted` | netchange/detector.go:318-332 | the normalised snapshot holds exactly the interfaces that pass the filter, ordered by index |
| `NetState.StateDetector.Normalize` | netchange/detector.go:318-332 | the interfaces that pass the filter, ordered by index, those of the same index in any order; the normalised snapshot if indices are unique |
| `NetState.StateDetector.Update` | netchange/detector.go:291-316 | replaces the snapshot by the filtered and ordered new one, repeated indices included, and returns their difference |
| `NetState.SortFunc` | netchange/detector.go:327-329 | a permutation in the order of the indices |
| `NetState.Previous` | netchange/detector.go:294-297 | the map from index to the last previous interface with it |
| `NetState.CompareForward` | netchange/detector.go:298-307 | added and changed interfaces, a repeated index counting as added; the map keeps exactly those that are gone |
| `NetState.AppendRemoved` | netchange/detector.go:308-312 | one removed entry per interface left in the map |
| `NetDiff.DiffExact` | netchange/detector.go:291-316 | a report has exactly one entry per interface that differs between the two snapshots, and the entry says how; first those present now in index order, then the removed ones in index order |
| `NetDiff.DiffEmptyIff` | netchange/detector.go:291-316 | nothing is reported if and only if the snapshots are equal |
| `NetDiff.SelfDiffEmptyIff` | netchange/detector.go:298-307 | a snapshot compared with itself reports nothing if and only if its indices are unique |
| `NetDetector.Detector.Start` | netchange/detector.go:137-152 | the first snapshot is applied and its interfaces are kept for the first Check, or there is no detector |
| `NetDetector.Detector.Refresh` | netchange/detector.go:205-229 | pending is set by a notification or a drain error and cleared only when a snapshot is applied |
| `NetDetector.Detector.Wait` | netchange/detector.go:231-257 | pending is set before waiting on a source |
| `NetDetector.Detector.CheckLoop` | netchange/detector.go:185-202 | the loop gives, for any number of rounds, the outcome of the round function |
| `NetDetector.Detector.Begin` | netchange/detector.go:160-178 | closed, busy and cancelled calls change nothing |
| `NetDetector.Detector.Close` | netchange/detector.go:261-277 | refused while a Check is active; drops the snapshot |
| `NetDetector.CheckReportsDifference` | netchange/detector.go:185-202 | however many silent rounds a Check takes, its report is the nonempty difference between the snapshot of the previous report and the newest; without a report the snapshot is unchanged |
| `NetRuns.RunInv` | netchange/detector.go:160-257 | in every interleaving with a changing network and cancelled, failed and silent refreshes, an out-of-date snapshot has a queued notification or pending set |
| `NetRuns.ChangeIsReported` | netchange/detector.go:205-257 | with notifications or polling, while open: whenever the interfaces differ from the last report, the next undisturbed Check reports exactly that difference, and with notifications one is queued or pending |
| `NetRuns.ReportsAddUp` | netchange/detector.go:185-228 | the reports of a run are the differences along one chain of snapshots that ends in the current one; none after the first is empty |
| `NetRuns.AnswersExactly` | netchange/detector.go:160-178 | after every run Check and Close answer closed if closed, busy exactly while a Check is active, and Check answers cancelled only if it could have begun |
| `NetRuns.CloseCloses` | netchange/detector.go:261-277 | a Close that is not refused closes and drops the snapshot; a refused one changes nothing |
| `NetRuns.ClosedReportsNothing` | netchange/detector.go:162-166 | after Close no continuation of the run reports anything |
| `NetRuns.EndsWithoutReport` | netchange/detector.go:186-201 | cancelled anywhere or failed, a Check returns without a report, keeps the snapshot and remembers a notification it has read |
| `NetRuns.CancelledAfterWait` | netchange/detector.go:185-188 | a Check that has waited still returns if it is cancelled before it goes on |
| `NetRuns.FirstCheckReports` | netchange/detector.go:189-194 | the first Check reports the interfaces the detector was started with, at once and only once |
| `NetRuns.ReportClearsPending` | netchange/detector.go:226-228 | after a report no notification is pending |
| `NetRuns.QuietCheckWaits` | netchange/detector.go:206-214 | with a source and nothing pending a Check that meets no notification waits without reading the interfaces |
| `NetRuns.NotificationsReadOnce` | netchange/detector.go:205-214 | each notification is read once |
| `NetChecks.ChecksFollowLoop` | netchange/detector.go:185-257 | in every run each Check that has returned did what the loop does: its rounds lead from the detector it began with to the one it left and to what it returned |
| `LossFilters.DropsPerBlock` | vnet/loss_filter.go:101-103 | none at 0, all at 100, never more than the block |
| `LossFilters.DropsRounded` | vnet/loss_filter.go:99-103 | the share is the exact fraction rounded to the nearest integer, halves up |
| `LossFilters.AdjustedCount` | vnet/loss_filter.go:199-210 | turning entries one way reaches exactly the pending number of drops |
| `LossFilters.ShuffledCount` | vnet/loss_filter.go:213-215 | no shuffle changes the number of drops in the block |
| `LossFilters.ShuffleReachesIff` | vnet/loss_filter.go:213-215 | a block can become another by a shuffle if and only if that is one of its permutations |
| `LossFilters.NewBlockOk` | vnet/loss_filter.go:197-217 | a new block holds exactly the share for the chance in force when it begins |
| `LossFilters.LossHandle.constructor` | vnet/loss_filter.go:126-144 | the first block holds exactly the share for the initial chance |
| `LossFilters.LossHandle.Shuffle` | vnet/loss_filter.go:213-215 | applies the swaps of the random choices in place |
| `LossFilters.LossHandle.ShuffleBlock` | vnet/loss_filter.go:197-217 | adjusts and shuffles the block and starts it |
| `LossFilters.LossHandle.ShouldDropShuffle` | vnet/loss_filter.go:159-171 | answers from the block, beginning a new one at the border |
| `LossFilters.LossHandle.SetLossRateShuffle` | vnet/loss_filter.go:183-193 | takes effect at the next block, or at once with a new block |
| `LossRuns.ChanceIsLast` | vnet/loss_filter.go:183-193 | after every history the chance in force is that of the last rate set, with or without reset, or the constructor's |
| `LossRuns.FullBlockDrops` | vnet/loss_filter.go:159-217 | after any history that ends at a block border, a full block not cut by a reset drops exactly the share for the last chance set before it, even if rates change inside it |
| `LossRuns.BegunBlockDrops` | vnet/loss_filter.go:137-143 | the block the constructor begins drops exactly the number of entries it marks, if no reset cuts it |
| `LossRuns.ResetBlockDrops` | vnet/loss_filter.go:190-192 | the block an immediate reset begins, if no further reset cuts it, drops exactly the share for the new chance |
| `LossRuns.TotalDropBounds` | vnet/loss_filter.go:159-217 | with a constant chance, k packets lose between floor(k/b)*d and floor(k/b)*d + min(k mod b, d), and at least d minus the rest of the block from the last one |

## Left out

- Real sockets, read loops, listeners and operating-system notification code: input and output only.
- `netctx`, `dpipe`, `vnet/conn.go`, the token bucket, random-mode loss, small maps and queues: simple wrappers, or resting on code that is not part of this model.
- The Check closures of the two detectors: the wrapped one keeps the distance of check time on purpose; CheckSeq and Accept are modelled instead. The non-wrapping one does what CheckSeq and Accept do.
- Tokens made by hand for numbers beyond maxSeq, and a maxSeq of 0 in the non-wrapping detector, where accepting divides by zero.
- ReplayWindow.SlidingWindowDetector.Accept: requires maxSeq of at least 1, because the source panics otherwise.
- Replay windows of 2^63 bits and more, whose size does not fit an int64.
- Integer overflow of buffer sizes, of the wasm timer's 64-bit version and of channel and context numbers: mathematical integers are used.
- PacketBuffer.Buffer.Read: the first test of the read deadline and the blocking select are steps of BufferWakeup instead; clearing the caller's attribute slice and its reuse of storage are not modelled.
- Attribute lists are values: the shallow copy of keys and values is not visible in the model.
- MessageBatches.MessageBatch.Flush: WriteBatch calls that take nothing for ever, on which the source does not return.
- NAT keys and addresses are structured values; formatting and parsing them is not modelled, and setting a chunk's address always succeeds.
- NatTable.Translator.TranslateOutbound: requires a nonempty list of mapped addresses, because the source indexes its first element.
- NetDetector.Detector.Start: requires unique interface indices, which the operating system provides, because the order of equal ones is open; NetState.StateDetector.Update has no such requirement.
- NetDetector.Detector.Refresh: requires unique interface indices, for the same reason.
- NetDetector.Detector.CheckLoop: requires unique interface indices, for the same reason.
- That every interface change queues a notification is taken from the operating system; the notification source itself is not modelled.
- The platform timeout of Check's wait: it is a wait that ends without an error.
- LossFilters.LossHandle.SetLossRateShuffle: requires a chance of 0 to 100, which SetLossRate checks before.
- Done and Deadline of the deadline object, Get and Set of attributes: one-line accessors and searches.
