# Verified models of the Building Blocks core

Dafny models of the parts of the Building Blocks tree where a mistake is hardest to see: the frame pools and the
audio pipeline that runs over them, the CRC check of the manufacturing record, line drawing, the message bus, the
JSON helpers, the A/B boot script with the update installer, and the configuration store. Each module models one
source file or one layer of it and proves what that file is for.

`dafny verify dfyconfig.toml` checks everything.

## How the models are made

**Concurrency.** `SpscRing` and `MpscPool` are step machines with one transition per atomic load, compare-and-swap,
add, store, lock, wait, signal and unlock, plus one per byte stored into a frame. `AudioPipeline` runs capture, codec
and playback over both pools, with every device result and every interleaving possible. The theorems are about every
reachable state and every run. History variables (`committed`, `dequeued`, `fills`, `sent`, `tags`, `handed`,
`owners`, `origins`, `dropped`, `drained`, `released`) are written but no transition reads them. `PoolCode` is the pool
source in its own imperative form: each of its methods is proved to be a run of the step machine. `PoolRuns` gives those runs
for the second pool, and `PoolOrder` says when it keeps order.

**Imperative code.** Loops and in-place updates are methods and classes: `PoolCode.FramePool`,
`MfgRecord.Manufacturing`, `LineDrawing.DrawLine`, `LineFraming.LineBuffer`, `BusDaemon.Daemon`,
`JsonBuffer.Writer`, `BootScript.BootLoader`, `UpdateInstall.Machine`, `ConfigStore.ConfigFile`. Each is proved
against a function on values, and the theorems are about that function.

**Numbers.** Register words of the CRC are 32 bits, lowest first. `AudioFormat` wraps at 32 bits where the source
does. Everything else is unbounded; the limits under which that is exact are listed below.

## Where the code and its documentation disagree

The models follow the code.

- Setting `recovery_mode=1` never boots recovery, although docs/system-architecture.md:403 says so: section 3 of the
  script finds `boot_slot=recovery` invalid and replaces it by `a` (`BootScript.RecoveryFlagNeverHonoured`).
- An unconfirmed update of slot b is not rolled back to slot a (docs/system-architecture.md:358): after its tries
  comes recovery (`UpdateInstall.Rollback`).
- The installer writes `boot_attempt=3`, not `boot_limit` (tools/bb-update/bb_update.h:49), and the script counts
  down before it boots, so an update gets two tries, not three (`UpdateInstall.Rollback`).
- A fresh environment with n attempts boots slot a max(n - 1, 0) times, not n times as
  docs/system-architecture.md:236-248 draws it (`BootScript.UnconfirmedSchedule`).
- The CRC starts at 0 and is not complemented, unlike the CRC-32 of section 8 of RFC 1952, so an all-zero record
  passes (`MfgCrc.BlankRecordAccepted`).
- The manufacturing accessors return bytes that failed the check (`MfgRecord.Manufacturing.Field`).

## Model

| member | source | states |
|---|---|---|
| `SpscRing.RunKeepsInv` | libbb/bb_pool.c:71-111 | In every state of every interleaving of producer and consumer the ring is consistent: at most `count` commits outstanding, window slots raised and intact, everything else free |
| `SpscRing.StepRefinesFifo` | libbb/bb_pool.c:71-111 | Every atomic step is a step of a bounded FIFO of capacity `count`: only the commit appends (and only when not full), only the read_idx increment removes, and it removes the oldest |
| `SpscRing.RunConservesPayloads` | libbb/bb_pool.c:71-111 | Over any run, what was queued plus what is put in equals what is taken out plus what remains, byte for byte and in order |
| `SpscRing.DequeuedIsPrefixOfCommitted` | libbb/bb_pool.c:71-111 | From a fresh ring the dequeued payloads are always a prefix of the committed ones, also when the producer abandons slots |
| `SpscRing.SlotsPartitioned` | libbb/bb_pool.c:76-84 | A slot's refcount is nonzero exactly if the producer, the committed window or the consumer has it, and never two of them at once |
| `SpscRing.HeldFrameIsStable` | libbb/bb_pool.c:94-111 | No step of either side but its own release changes a frame the consumer still holds |
| `SpscRing.NullExits` | libbb/bb_pool.c:75-84 | The NULL returns, exactly: acquire when the ring is full or the slot is still held, dequeue when it saw no commit; dequeue's refcount test never rejects |
| `MpscPool.RunKeepsInv` | libbb/bb_pool.c:115-159 | For any number of producers the pool invariant (mutex ownership, refcounts, pending count, scan, wakeup, history) holds in every state of every run |
| `MpscPool.PendingCountsReadyFrames` | libbb/bb_pool.c:126-154 | Ready frames not yet handed out always number mp_pending plus the producers between the refcount add and the pending add; mp_pending is never negative and the NULL exit of dequeue is unreachable |
| `MpscPool.PassedOverAllMeansNothingPending` | libbb/bb_pool.c:142-149 | If a scan passes over every slot, each ready frame was raised behind it by a producer still in flight, so nothing was pending: the non-atomic scan cannot miss |
| `MpscPool.NoWakeupIsLost` | libbb/bb_pool.c:130-140 | Whenever the consumer sleeps unsignalled although frames are counted, the mutex holder is a producer whose signal is still to come and will wake it |
| `MpscPool.HandedOutOnce` | libbb/bb_pool.c:126-159 | Every enqueue is ready or was handed out exactly once, and the frame in the consumer's hands is the one handed out last and carries the bytes of that enqueue |
| `MpscPool.FilledFramesArePrivate` | libbb/bb_pool.c:115-124 | A frame being filled belongs to one producer only and is neither ready nor being read |
| `PoolOrder.LaterEnqueueOvertakes` | libbb/bb_pool.c:115-154 | A run with one producer and two slots in which frame 2 is handed out while frame 1 is waiting |
| `PoolOrder.MarkKeepsOrderExactly` | libbb/bb_pool.c:126-129 | While ready frames stand in slot order, an enqueue keeps them so exactly if none is ready in a higher slot |
| `PoolOrder.TakeIsOldestExactly` | libbb/bb_pool.c:142-149 | While ready frames stand in slot order, the frame a dequeue takes is the oldest exactly if none has become ready below it |
| `PoolOrder.OrderedRunIsFifo` | libbb/bb_pool.c:115-159 | Along runs whose enqueues and takes meet these two conditions, for any number of producers, the frames handed out are exactly the first ones enqueued, in order |
| `PoolCode.FramePool.SpAcquire` | libbb/bb_pool.c:71-86 | The code of acquire: which slot it takes or why it returns NULL, the whole new array, and that the call is a run of the ring machine |
| `PoolCode.FramePool.SpCommit` | libbb/bb_pool.c:88-92 | Commit raises write_idx by one and is the machine's commit step |
| `PoolCode.FramePool.SpDequeue` | libbb/bb_pool.c:94-106 | Dequeue returns the slot of read_idx and advances it, or returns NULL on exactly two conditions; a run of the ring machine |
| `PoolCode.FramePool.SpRelease` | libbb/bb_pool.c:108-111 | Release by the consumer of a held frame, or by the producer of the frame it acquired, stores 0 in that frame's word and in no other, and is that side's step of the ring machine |
| `PoolCode.FramePool.MpAcquire` | libbb/bb_pool.c:115-124 | The scan takes the lowest free frame, or returns NULL only if none is free; a run of the pool machine |
| `PoolCode.FramePool.MpEnqueue` | libbb/bb_pool.c:126-134 | Enqueue raises the frame's refcount and mp_pending, wakes a sleeping consumer and gives the mutex back; the whole new state |
| `PoolCode.FramePool.MpDequeue` | libbb/bb_pool.c:136-154 | Dequeue sleeps exactly when nothing is pending, else hands out the lowest ready frame and lowers mp_pending; in a consistent pool it never returns NULL |
| `PoolCode.FramePool.MpRelease` | libbb/bb_pool.c:156-159 | Release stores 0 in that frame's word and in no other |
| `AudioFormat.SameFramesExactly` | middleware/bb_audio_stream.c:27-34 | Playback's division recovers the captured frame count exactly when the byte count does not wrap at 32 bits |
| `AudioFormat.DeviceConfigValid` | middleware/bb_audio_stream.c:97-97 | Without wrap-around every read of at least one frame has a size within the period buffer and is never 0, the shutdown mark |
| `AudioInvariant.StepKeepsInv` | middleware/bb_audio_stream.c:43-232 | Every step of every thread, and of stop, keeps the pipeline invariant over both pools and the three program counters |
| `AudioInvariant.RunKeepsInv` | middleware/bb_audio_stream.c:43-232 | The same for whole runs |
| `AudioInvariant.PlayedBufferIsCaptured` | middleware/bb_audio_stream.c:191-227 | The frame in playback's hands is the one handed out last and never before; it is a byte copy, within capacity, of one captured buffer of which no earlier frame was a copy, or it is the sentinel, which appears only after stop |
| `AudioInvariant.NoBufferPlayedTwice` | middleware/bb_audio_stream.c:118-157 | Captured buffers are passed on in capture order, none twice, and none is handed to playback twice |
| `AudioInvariant.BuffersConserved` | middleware/bb_audio_stream.c:97-163 | Buffers committed equal those in the ring, held by the codec, dropped, drained, ready, held by playback and released, one sentinel aside |
| `AudioShutdown.NeverStuck` | middleware/bb_audio_stream.c:159-174 | No deadlock: unless all threads have ended, some thread can move without a spurious wakeup, even if all 100 sentinel tries failed |
| `AudioShutdown.CaptureHasRoom` | middleware/bb_audio_stream.c:79-97 | The acquired frame has room for every byte a read of one period delivers |
| `AudioShutdown.EveryStepCounts` | middleware/bb_audio_stream.c:358-362 | After stop a natural-number measure falls with every step; a spurious wakeup gives back at most three |
| `AudioShutdown.ShutdownTerminates` | middleware/bb_audio_stream.c:358-378 | After stop every interleaving ends within StepsLeft steps plus three for each spurious wakeup |
| `AudioShutdown.AllThreadsEnd` | middleware/bb_audio_stream.c:358-378 | From every stopped state all three threads can end within StepsLeft steps, without spurious wakeups |
| `AudioShutdown.MaximalRunsEnd` | middleware/bb_audio_stream.c:358-378 | Every run from a stopped state, whatever steps it took, can be continued without a spurious wakeup exactly if some thread has not ended |
| `AudioShutdown.AtMostOneFrameLeft` | middleware/bb_audio_stream.c:159-163 | When all threads have ended at most one committed frame is left in the ring, and nobody holds a frame or the mutex |
| `AudioShutdown.EarlyExitIsReported` | middleware/bb_audio_stream.c:64-214 | A capture or playback thread that ends while the stream runs has set the error flag |
| `ShiftRegister.FeedLinear` | libbb/bb_persist.c:270-275 | A linear register fed the difference of two bit strings ends at the difference of their results |
| `ShiftRegister.FeedCancels` | libbb/bb_persist.c:270-276 | Feeding one word ends at zero exactly if the word is the register's content |
| `ShiftRegister.BurstNeverCancels` | libbb/bb_persist.c:270-275 | A nonzero burst no longer than the register never ends at zero, wherever it stands |
| `MfgCrc.CrcLaws` | libbb/bb_persist.c:272-275 | The reflected CRC-32 step is linear and loses nothing, which is what the theory of ShiftRegister asks for |
| `MfgCrc.CrcIsFeed` | libbb/bb_persist.c:269-275 | The bytewise loops compute the same as feeding the record bit by bit, lowest bit first |
| `MfgCrc.AcceptedIffResidueZero` | libbb/bb_persist.c:268-276 | For records of any length: accepted exactly if the register run over data and CRC field ends at zero |
| `MfgCrc.UndetectedExactly` | libbb/bb_persist.c:268-276 | A corruption goes unnoticed exactly if the register takes the error pattern to zero, whatever the record |
| `MfgCrc.BurstRejected` | libbb/bb_persist.c:268-276 | Any corruption of an accepted record within 32 consecutive bits, CRC field included, is rejected |
| `MfgCrc.LongerBurstsEscape` | libbb/bb_persist.c:274-276 | 32 is the limit: in every record of five bytes or more some 33-bit burst passes |
| `MfgCrc.BlankRecordAccepted` | libbb/bb_persist.c:269-276 | An all-zero record of any length passes |
| `MfgRecord.CheckCrc` | libbb/bb_persist.c:268-276 | The two nested loops decide exactly acceptance |
| `MfgRecord.Manufacturing.Read` | libbb/bb_persist.c:253-281 | Status 0 exactly if the record is cached or was read in full and passes; what lands in the caller's buffer and in the cache, also after a missing device and a short read |
| `MfgRecord.Manufacturing.Field` | libbb/bb_persist.c:283-299 | An accessor returns its slice of the cache; a full-length record that fails the check is returned all the same |
| `LineDrawing.StepTests` | tools/bb-display-test.c:64-66 | The two tests on 2 * err move sample k of the rounded ideal line to sample k + 1 in all octants, and 2 * err stays within 3 * max(dx, dy) |
| `LineDrawing.Advance` | tools/bb-display-test.c:64-66 | One turn of the loop takes position and error term from sample k to sample k + 1 |
| `LineDrawing.EndOfLine` | tools/bb-display-test.c:63-63 | The exit test fires at sample max(dx, dy) and at no earlier one |
| `LineDrawing.PointsWithinBox` | tools/bb-display-test.c:58-67 | The samples start and finish at the endpoints and never leave the box they span |
| `LineDrawing.PointsAdjacent` | tools/bb-display-test.c:64-66 | Consecutive samples are neighbours, one step apart along the longer axis |
| `LineDrawing.PointsDistinct` | tools/bb-display-test.c:61-67 | No point is plotted twice |
| `LineDrawing.WithinHalfPixel` | tools/bb-display-test.c:56-68 | Every plotted point is within half a pixel of the ideal line along the shorter axis |
| `LineDrawing.ReversalDiffersOnlyAtTies` | tools/bb-display-test.c:56-68 | For every line and sample: drawn from the other end the line has the same point there exactly if the ideal line does not pass midway between two pixels |
| `LineDrawing.PutPixel` | tools/bb-display-test.c:33-36 | Stores one word, or none for a negative coordinate |
| `LineDrawing.DrawLine` | tools/bb-display-test.c:56-68 | For every line whose unclipped points lie inside the framebuffer, the loop ends after plotting samples 0 to max(dx, dy) in order, one an iteration, having set exactly their words |
| `LineFraming.SplitStream` | services/bb-busd.c:203-210 | The lines of a stream are those of its front part, then those of its unfinished tail joined to the rest |
| `LineFraming.LineBuffer.FindNewline` | services/bb-busd.c:206-206 | strchr: the first newline at or after a position |
| `LineFraming.LineBuffer.HandleLines` | services/bb-busd.c:203-210 | The in-place loop hands over exactly the complete lines, in order, and stops at the unfinished one |
| `LineFraming.LineBuffer.Compact` | services/bb-busd.c:211-216 | The memmove leaves exactly the unfinished line at the front |
| `LineFraming.LineBuffer.Receive` | services/bb-busd.c:194-216 | One recv: lines handed over and text kept are those of the kept text joined to the chunk; always within the buffer |
| `LineFraming.ChunkInvariance` | libbb/bb_bus.c:86-119 | However a stream is cut into chunks, the lines of successive chunks, each joined to the tail kept before it, and the tail kept at the end are those of the whole stream |
| `LineFraming.LineBuffer.ReceiveAll` | services/bb-busd.c:194-219 | Successive recvs of any chunks that fit: in place, the buffer hands over exactly the lines of the whole stream and keeps exactly its tail, always within bounds |
| `LineFraming.RoomExactly` | services/bb-busd.c:196-197 | For every stream and buffer size: no recv before the last byte is ever left without room exactly if every line fits with its newline and the terminator, and the rest with the terminator |
| `LineFraming.GetsThroughExactly` | libbb/bb_bus.c:86-90 | A stream can be cut so that it gets through the buffer under exactly the same condition |
| `BusMessages.FindPayload` | services/bb-busd.c:82-84 | The pointer walk finds the text after the first word and one blank |
| `BusMessages.DaemonRoundTrip` | services/bb-busd.c:79-87 | For every message: the print is read back by the daemon unchanged exactly if the topic is one word of at most 255 characters and the payload shows a visible character; with a good topic a blank payload is dropped |
| `BusMessages.ClientRoundTrip` | libbb/bb_bus.c:98-110 | The receiver recovers topic and payload from the reprint |
| `BusMessages.SubscriptionRoundTrip` | libbb/bb_bus.c:47-57 | SUB and UNSUB lines reach the table with the topic the client named |
| `SubscriptionTable.SubscribeAddsPair` | services/bb-busd.c:88-105 | SUB adds exactly its (topic, client) pair, unless all rows are taken, and keeps the table consistent |
| `SubscriptionTable.AddFdAlwaysLands` | services/bb-busd.c:95-104 | The 64-entry limit of a row loses no subscription: a full row already has every connected client |
| `SubscriptionTable.UnsubscribeRemovesPair` | services/bb-busd.c:106-116 | UNSUB by swap-removal removes exactly its pair |
| `SubscriptionTable.DisconnectRemovesClient` | services/bb-busd.c:123-145 | A disconnect removes exactly the client's pairs, the re-examined place after a swap included |
| `SubscriptionTable.RunRefinesRelation` | services/bb-busd.c:75-145 | Over every run within capacity the arrays stand for a plain set of (topic, client) pairs, with distinct topics, distinct clients per row and only connected ones |
| `SubscriptionTable.DistinctTopicsExactly` | services/bb-busd.c:89-93 | SUB keeps topics distinct exactly if the topic fits the stored field, no row is free, or its truncation is new |
| `SubscriptionTable.LongTopicDuplicates` | services/bb-busd.c:89-93 | A longer topic subscribed twice occupies two equal rows and cannot be unsubscribed |
| `SubscriptionTable.PublishPerSubscription` | services/bb-busd.c:58-73 | A publish sends each client but the sender exactly one copy per subscription of its own that matches |
| `SubscriptionTable.WithoutAt` | services/bb-busd.c:139-144 | The compaction at the client's place removes that client and keeps the others in order |
| `BusDaemon.Daemon.FindSub` | services/bb-busd.c:44-49 | The first row with the topic, or -1 |
| `BusDaemon.Daemon.Subscribe` | services/bb-busd.c:88-105 | The array code turns the rows into those of SUB |
| `BusDaemon.Daemon.Unsubscribe` | services/bb-busd.c:106-116 | The array code turns the rows into those of UNSUB |
| `BusDaemon.Daemon.Publish` | services/bb-busd.c:58-73 | The two loops send exactly the deliveries, in order, or nothing if the line would not fit |
| `BusDaemon.Daemon.HandleLine` | services/bb-busd.c:75-121 | What one line sends and makes of the table, over all commands |
| `BusDaemon.Daemon.RemoveClient` | services/bb-busd.c:123-145 | The array code removes the client from every row and from the client list, keeping the others in order |
| `BusDaemon.Daemon.Accept` | services/bb-busd.c:175-187 | A connection within capacity is appended; one beyond it is not recorded |
| `BusEndToEnd.StreamLines` | libbb/bb_bus.c:31-39 | A stream of lines as the client sends them splits into exactly these lines with nothing left over |
| `BusEndToEnd.ClientsSeparate` | services/bb-busd.c:175-216 | However recv chunks, connections and disconnections of all clients interleave, each client's lines are those of its own chunks |
| `BusEndToEnd.OrderKeptPerSender` | services/bb-busd.c:75-121 | In the order the daemon handles them, each client's requests keep the order they were made in |
| `BusEndToEnd.DaemonForwardsDue` | services/bb-busd.c:58-145 | Over every run within capacity, subscriptions changing all the while, the bytes for a receiver are those of the messages due to it |
| `BusEndToEnd.DaemonAlwaysHasRoom` | services/bb-busd.c:194-199 | The daemon's 8192-byte buffers take every stream of good requests without ever being left without room |
| `BusEndToEnd.ReceivedExactly` | libbb/bb_bus.c:83-90 | A stream of messages gets through the receiver's buffer, and never leaves it without room, exactly if every print leaves room for its newline |
| `BusEndToEnd.LongestPrintBlocks` | libbb/bb_bus.c:41-90 | A print of 4287 characters is sent untruncated and blocks every receiver |
| `BusEndToEnd.Delivery` | libbb/bb_bus.c:75-121 | End to end, for any number of clients that connect, leave, subscribe, unsubscribe and publish, and any cutting and interleaving of the sockets: the daemon's buffers never run out of room, one order keeps every client's own, and a receiver is sent every message of the others once for each subscription it then has that selects it; these get through its buffer exactly if each print leaves room for its newline, and then its handler is called with exactly these, unchanged and in that order |
| `JsonText.CutAtQuote` | libbb/bb_json.c:59-60 | An occurrence of a quoted key cannot straddle a quote |
| `JsonRoundTrip.SearchLandsOnKey` | libbb/bb_json.c:55-61 | The substring search stops at the key token exactly if no earlier text between quotes equals the key, and otherwise before it |
| `JsonRoundTrip.OrdinaryKey` | libbb/bb_json.c:25-46 | For keys not starting with a colon or comma, only an equal key or string value can be mistaken for it |
| `JsonRoundTrip.KeyFound` | libbb/bb_json.c:55-64 | find_key hands the getters the printed value and what follows it |
| `JsonRoundTrip.AtoiRoundTrip` | libbb/bb_json.c:87-91 | Every printed 32-bit integer, negative ones included, is read back |
| `JsonRoundTrip.GettersReturnWhatWasAdded` | libbb/bb_json.c:66-99 | For every printed object the string, int and bool getters return what the writer added for the first use of a key |
| `JsonRoundTrip.ValueMistakenForKey` | libbb/bb_json.c:60-60 | If an earlier string value equals the key, the search stops before the key |
| `JsonBuffer.Writer.Add` | libbb/bb_json.c:25-46 | The two snprintf calls print one field, cut where the buffer ends, and the second starts past the end, with a wrapped size, exactly if the key ran past it |
| `JsonBuffer.Writer.EndObject` | libbb/bb_json.c:18-23 | The closing brace replaces a trailing comma, with the terminator if there is room; the comma test looks outside the buffer exactly if the position has passed its end |
| `JsonBuffer.Writer.WriteObject` | libbb/bb_json.c:14-46 | For every object and buffer size: the object and its terminator are there in the end if they fit; some store leaves the buffer exactly if the last snprintf starts past its end |
| `JsonBuffer.FindKeyAt` | libbb/bb_json.c:55-64 | The pointer walk returns the position find_key stands for, or none |
| `JsonBuffer.CopyString` | libbb/bb_json.c:71-82 | The copy loop unescapes up to the closing quote and never writes past its 256 bytes |
| `JsonBuffer.GetStringInto` | libbb/bb_json.c:66-85 | The getter returns the unescaped string, terminated, or NULL |
| `BootScript.BootLoader.Run` | deploy/boot/boot.cmd:9-61 | The script, edit by edit, boots the slot and leaves the environment of BootOnce, having written exactly Saves to flash, in order |
| `BootScript.CutBetweenSaves` | deploy/boot/boot.cmd:22-61 | From what any save but the last leaves in flash, the next run boots the slot this one would have booted and leaves the same environment |
| `BootScript.RecoveryExactly` | deploy/boot/boot.cmd:14-44 | Recovery is booted exactly from slot b, unconfirmed, attempts used up, flag not set |
| `BootScript.RecoveryFlagNeverHonoured` | deploy/boot/boot.cmd:14-28 | With the flag set, every boot of every run is of slot a (of b if boot_limit is at most 1) |
| `BootScript.UnconfirmedSchedule` | deploy/boot/boot.cmd:22-61 | For every boot_limit L >= 1 an unconfirmed run from a with n attempts boots a max(n-1,0) times, then b L times, recovery, a L-1 times, and so on with period 2L |
| `BootScript.ConfirmedSlotKept` | deploy/boot/boot.cmd:33-61 | A confirmed slot is left only after exactly L consecutive unconfirmed boots of it |
| `UpdateInstall.Machine.Install` | tools/bb-update/bb_update.c:143-241 | The commands in the source's order, with power failing anywhere: until fw_setenv environment and other slot are untouched, at the end both partitions are rewritten and selected with their tries, and a device safe to install on always boots a complete slot |
| `UpdateInstall.PreludeKeepsOtherSlot` | tools/bb-update/bb_update.c:157-228 | Until the first fw_setenv neither the environment nor the other slot is touched |
| `UpdateInstall.EnvironmentStates` | tools/bb-update/bb_update.c:230-241 | The three states around the fw_setenv calls, over the rewritten partitions |
| `UpdateInstall.CutSafetyExactly` | tools/bb-update/bb_update.c:143-241 | For every device: no power cut at any command boundary leads to a boot of a half-written slot exactly if the next boot would be of another complete slot, the package brings a boot partition and the fallback is complete where the script would fall back |
| `UpdateInstall.FirstInstallIsSafe` | tools/bb-update/bb_update.c:129-241 | In a confirmed boot of a complete slot the automatic installation survives every cut |
| `UpdateInstall.SecondInstallIsNot` | tools/bb-update/bb_update.c:129-167 | A second installation before the reboot never does, although the first one left its slot complete |
| `UpdateInstall.HalfWrittenExactly` | tools/bb-update/bb_update.c:157-228 | During the prelude the target is half-written from its first format until its last partition is unmounted, and with no boot.tar.gz to the end |
| `UpdateInstall.FirstHalfWrittenBoot` | deploy/boot/boot.cmd:33-61 | After a cut that leaves the target half-written, and without confirmations, the first boot of it is number L for running slot a and L + 1, behind recovery, for running slot b; with L = 1 and b running it never comes |
| `UpdateInstall.Rollback` | tools/bb-update/bb_update.c:234-237 | An unconfirmed update is booted exactly twice whatever boot_limit; then b follows a, but recovery follows b |
| `ConfigStore.ConfigFile.Read` | libbb/bb_persist.c:71-96 | The read loop with its break and its stripping returns the first matching line's value, or NULL |
| `ConfigStore.ConfigFile.Write` | libbb/bb_persist.c:98-136 | The rewriting loop with its flag produces the new text, or fails leaving file and presence as they were |
| `ConfigStore.SetThenGetExactly` | libbb/bb_persist.c:98-136 | For every file, key and value: a value that fits a line comes back if the key was there already or the file ended at a piece boundary, one that does not fit never does, and for keys without '=' the first condition is necessary too |
| `ConfigStore.GluedKeyWithEquals` | libbb/bb_persist.c:116-129 | A concrete file, key with '=' and value for which the value comes back although the file did not end at a piece boundary |
| `ConfigStore.SetIsMapUpdate` | libbb/bb_persist.c:71-136 | One set changes the value of its own key and of no other, over the file's bytes and fgets pieces, and leaves a file that ends at a boundary |
| `ConfigStore.RunIsMap` | libbb/bb_persist.c:71-136 | After any sequence of sets from an absent file, get returns the last value set and nothing for a key never set |

## Left out

- Pool indices: write_idx and read_idx are unbounded, exact for fewer than 2^31 commits; the modulo of a wrapped index is not modelled.
- Memory order: every atomic operation is sequentially consistent, as the source's default order is; the plain stores to a frame are separate steps.
- Order across the MPSC pool: from codec to playback none holds in general (`PoolOrder.LaterEnqueueOvertakes`).
- The consumer of the MPSC pool releases each frame before its next dequeue, as playback does; bb_frame_ref and bb_frame_unref are unused by the pipeline.
- AudioPipeline: models pass-through only, with equal channel counts and reads of at least one frame; the pluggable encode path and a device read of zero frames, which playback would take for shutdown, are outside.
- The threads of the audio stream are one step machine on values, not three methods; ALSA calls are arbitrary results that return, and frame counters, priorities, affinity and spawn failures are dropped.
- ShutdownTerminates: a spurious wakeup of the condition variable adds up to three steps, since POSIX sets no limit to their number.
- SpAcquire: `PoolCode` methods describe uninterrupted calls; interleaved calls are the step machine's.
- DrawLine: coordinates are unbounded; int overflow, for endpoints about 2^29 or more apart, is not modelled (StepTests bounds 2 * err).
- Bus streams carry no NUL bytes; what follows a line that does not fit its buffer (a recv of length 0, taken for the end of the connection) is not modelled.
- RunRefinesRelation: restricted to topics of at most 127 characters and a free row for each new topic; DistinctTopicsExactly and LongTopicDuplicates say what happens beyond.
- Delivery: messages are printed untruncated, a descriptor is not used again by a later client that sends, and no client pings, since bb_bus_ping takes its answer out of the stream itself.
- Daemon clients are identified by descriptor; the epoll index that goes stale after a compaction, and the daemon's main loop around it, are not modelled. Sends are collected in a list.
- Writer.Add: what a store outside the buffer leads to is not modelled. Floating-point values and get_double are left out.
- GettersReturnWhatWasAdded: for a string without quote and backslash, which the writer does not escape, after strings without quote, and keys of at most 125 characters, the search buffer's limit.
- Atoi is modelled for values that fit an int, which is what the writer prints.
- setexpr of U-Boot computes in hexadecimal; the counter is a number, which is the same for attempts up to 9. Kernel loading and a booti that returns are left out.
- CutSafetyExactly: commands other than the one cut succeed, a partition counts as written when it is unmounted, and targets are a or b as the manifest documents.
- The running slot, read from /proc/cmdline, is a parameter; the boot confirmation is a step that sets boot_ok; signature check, manifest reading, the update log and post-install scripts are left out.
- SetIsMapUpdate: for keys without '=' or newline, values without newline or final carriage return, and lines of at most 511 bytes; SetThenGetExactly covers all other values and files for the key itself.
- ConfigFile: one namespace's file, no NUL bytes; path construction, mkdir and the atomicity of rename are left out, and opening the temporary file is a parameter.
- The hal wrappers, GPIO, snapshots, logging, LED blinking, systemd units and the command-line tools other than draw_line: thin wrappers with easy properties.
