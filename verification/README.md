# Queue Observatory, modelled in Dafny

Queue Observatory decodes observation documents, applies them to an evidence store in a fixed
order, interprets counters and windows, classifies queues, and persists and recovers the result.
This project models the parts of it that decide something hard, and proves what they promise:
`dafny verify dfyconfig.toml` checks all of it.

Code that changes state is modelled as classes and methods with the same loops, branches and
early returns (`Crc32c`, `Format`, `Runtime`, `StoreCode`, `History`, `Buckets`, `Counter`,
`JsonCode`, `WireCode`, `Protocol`, `Time`, `Text`). Each method is proved equal to a function of
its inputs or of the old state, and the properties are proved about those functions:

| part | modules |
|---|---|
| CRC-32C and the durable segment | `Crc32c`; `SegmentSpec` and `SegmentLayout` (the format as a grammar), `SegmentProofs`, `SegmentTheorems`, `SegmentReadback`, `SegmentDamage`, `SegmentHeads`; `Format` (encoder and decoder) |
| ordered parallel applier | `Applier` (the step system), `ApplierProofs`, `ApplierTheorems`; `Runtime` (the locked regions) |
| evidence store | `Admission`, `StoreSpec`, `StoreTheorems`, `StoreRuns`, `RecoveredSums`, `StoreWindows`; `StoreCode`; `History`, `Circular` |
| sliding windows | `Window` (the abstract window), `WindowRefinement` (against direct grouping), `WindowContents` (in any order); `Buckets` (the circular array) |
| JSON | `JsonSpec` (how values are written and read), `JsonProofs`, `JsonDraft` (what writer calls build); `JsonCode` |
| observation documents | `Wire`, `WireProofs`, `WireTheorems`; `WireCode` |
| framing | `Protocol` |
| counters, time, text, policy | `Counter`, `Time`, `Text`, `Checked`, `Policy`, `Classification`, `Evidence` |

Octets are integers below 256 and checksums are `bv32`; fixed-width integers are subset types, and
wrapping, saturation and truncation are written out. Exceptions and error returns are `Result`,
`Status` or `Option` values.

## Where the code differs from what it says

The model follows the code. These are proved:

- A frame payload of 2^32 octets or more has its size field wrapped; such a frame does not survive (`Protocol.SurvivesIffLengthFits`).
- After a failed recovery the next start forgets, uncounted, what is queued, and a caller sleeping in drain (`ApplierTheorems.FailedRecoveryLoses`). Nothing is lost exactly when every start finds the queue empty (`ApplierTheorems.NothingLost`), and no caller is left exactly when no start is taken over a sleeper of an undrained queue with nobody told since (`ApplierTheorems.DrainServesIff`).
- A stop may cut the last applied document at a sample boundary (`ApplierTheorems.StopCuts`); otherwise the store is the sequential one (`ApplierTheorems.OrderedApplication`).
- The sample encoder is documented to refuse what the decoder would refuse, but accepts a negative observation time (`WireTheorems.EncodableYetMalformed`).
- The first counter reading is not checked against the counter's width (`Counter.WideBaseline`), equal readings count as unchanged before any ambiguity is considered (`Counter.ClaimsWhatIsDetermined`), and a refused reading moves the clock, so that the next claim is right exactly when a lap more was impossible since the last good reading (`Counter.RefusedReadingHidesTime`, `Counter.ClaimAfterRefusedIff`).
- A time before the epoch is printed with its date one day late unless it is midnight (`Time.TimestampRoundTrip`).
- Classification does not look at authority, whatever README.md of the repository says about sources of low authority (`Classification.AuthorityIgnored`, `Classification.LowAuthorityIsHeard`).
- A clock domain mismatch is never flagged (`StoreRuns.NoMismatchRecorded`), a sample without occupancy ends a conflict (`StoreRuns.ConflictAfterIff`), and a sample refused for want of room has spent its sequence number (`StoreRuns.RefusedForRoomIsSpent`).
- Only four incarnation tokens are remembered, so an older one is new again (`Admission.ForgottenTokenReturns`), and a fenced sample may already have switched incarnation or generation (`Admission.FenceLeavesNothingIff`).
- Drops reported by recovered records count in the sums of later fresh samples (`RecoveredSums.RecoveredDropsDecide`); they do not matter exactly when they add nothing (`RecoveredSums.RecoveredMatterIff`).
- An observation that falls between retained buckets is put behind the newest one (`WindowRefinement.MisplacedIff`), and sums across buckets wrap (`Buckets.TotalsAre`).
- The runtime identifier outside the payload is not covered by any checksum (`SegmentDamage.IdentifierDamageHarmless`), and neither are the reserved octets of a record by the record's own (`SegmentHeads.ReservedOctetsUnseen`, `SegmentHeads.ReservedDamageHarmless`).
- A time stamp may name 31 February (`Time.NoSuchDayAccepted`): the day is only checked to be at most 31. It names the date that its value falls on exactly when there is such a date and it is not second 60 at the end of a day (`Time.AcceptedDateIff`).
- The encoder writes a queue with more samples than a segment may have records, and the decoder refuses its record (`SegmentReadback.WrittenNotReadBack`). A segment comes back exactly when it has no such queue (`SegmentReadback.ReadBackIff`); otherwise what comes back are the queues before the first of them (`SegmentReadback.OversizedQueueStops`).

## Model

| member | source | states |
|---|---|---|
| SegmentTheorems.SegmentRoundTrip | src/persist/Format.cpp:358-548 | Whatever snapshot in normal form the encoder accepts, if none of its queues has more samples than a segment may have records, decoding its output gives that snapshot back, with a clean report that has as many records parsed as declared. |
| SegmentReadback.ReadBackIff | src/persist/Format.cpp:618-624 | Of the snapshots in normal form that the encoder accepts, exactly those come back, and exactly those are reported clean, in which no queue has more samples than a segment may have records. |
| SegmentReadback.OversizedQueueStops | src/persist/Format.cpp:618-624 | A queue with more is written, and on reading costs itself and everything behind it: what comes back are the queues before the first such one, with one record rejected. |
| SegmentReadback.WrittenNotReadBack | src/persist/Format.cpp:358-412 | A snapshot and limits for which the encoder succeeds and its own decoder gives no queue back. |
| SegmentTheorems.TruncationSafety | src/persist/Format.cpp:1106-1259 | Any cut of a segment that can be read back, as long as it leaves the header, decodes to exactly the records that still stand whole in it, and a proper cut is never reported clean. |
| SegmentTheorems.WholeRecordsIsMaximal | src/persist/Format.cpp:1144-1259 | The number of records recovered from a cut is the right one: the last counted ends in time, the next does not. |
| SegmentTheorems.RecoveredIsPrefix | src/persist/Format.cpp:1144-1259 | What the first whole records say is never partial: the queues are a prefix of the original list, every other section is there in full or not at all. |
| SegmentProofs.CountRoundTrip | src/persist/Format.cpp:552-563 | A count that the encoder wrote is never refused on reading, because every element takes at least an octet. |
| SegmentDamage.OneOctetChanged | src/persist/Format.cpp:1030-1142 | Any one octet changed in a segment that can be read back: in the header the segment is refused; in the unprotected runtime identifier it decodes as if intact; in the payload it decodes and is not clean. |
| SegmentDamage.HeaderDamageRefused | src/persist/Format.cpp:1082-1093 | Up to four consecutive changed octets in the header, clear of the edges of its checksum field, are refused. |
| SegmentDamage.LeftEdgeRefused | src/persist/Format.cpp:1078-1093 | So are up to four across the left edge of the checksum field, where the header size stands. |
| SegmentDamage.PayloadDamageReported | src/persist/Format.cpp:1126-1142 | Up to four consecutive changed octets in the payload are never reported clean. |
| SegmentDamage.IdentifierDamageHarmless | src/persist/Format.cpp:1114-1125 | Whatever the identifier octets after the header are changed to, the segment decodes as before: they carry no checksum and the first record overwrites them. |
| SegmentDamage.DamagedRecordContained | src/persist/Format.cpp:1144-1259 | Damage within four octets of the value of one record loses that record and what follows it, and nothing that stands before it. |
| SegmentHeads.DamagedHeadContained | src/persist/Format.cpp:1144-1188 | Damage to the checksum octets of one record, or to its type and flags, does the same. |
| SegmentHeads.ReservedOctetsUnseen | src/persist/Format.cpp:1175-1180 | Whatever stands in the two reserved octets of a record, the turn of the loop that reads it goes the same way. |
| SegmentHeads.ReservedDamageHarmless | src/persist/Format.cpp:1128-1188 | Changing the reserved octets of a record costs nothing: every record is read and the snapshot comes back, but the payload checksum tells, so the segment is not clean. |
| Format.EncodeSnapshot | src/persist/Format.cpp:358-548 | What is accepted fits the limits and becomes exactly the segment that the grammar prescribes; of the snapshots in normal form exactly those that fit are accepted. |
| Format.DecodeSnapshot | src/persist/Format.cpp:1030-1260 | For all octets whatever: status, report and snapshot are those that the grammar's reader defines. |
| Format.AppendRecord | src/persist/Format.cpp:285-301 | A record that fits is appended whole, behind its checksum; one that does not is refused, and nothing of the payload before it is lost. |
| Format.ChecksumRecord | src/persist/Format.cpp:1174-1180 | The checksum taken in two steps, over the prefix and then the value, is the one over both. |
| Format.WriteHeader | src/persist/Format.cpp:234-266 | A header laid out with a blank checksum and then patched is the sealed header of the grammar. |
| Format.ReadHeader | src/persist/Format.cpp:1048-1076 | Reads from any 80 octets the fields that the grammar puts there. |
| Format.PatchedHeader | src/persist/Format.cpp:259-264 | Replacing the four blank octets by the checksum gives the header image with that checksum and nothing else changed. |
| Format.EncodeQueueRecord | src/persist/Format.cpp:307-354 | The octets of a queue's record are its grammar image, or the record is refused where its parts do not fit. |
| Format.EncodeSourceRegistry | src/persist/Format.cpp:415-448 | The octets of the source registry are its grammar image. |
| Format.EncodeEventBatch | src/persist/Format.cpp:450-475 | The octets of the event batch are its grammar image. |
| Format.EncodeMetadata | src/persist/Format.cpp:477-532 | The octets of the class metadata are their grammar image. |
| Format.DecodeQueueRecord | src/persist/Format.cpp:565-698 | Agrees with the grammar's reader on every input, the replacement of the mask word by the listed fields included. |
| Format.DecodeSourceRegistry | src/persist/Format.cpp:700-788 | Agrees with the grammar's reader on every input. |
| Format.DecodeEventBatch | src/persist/Format.cpp:790-873 | Agrees with the grammar's reader on every input. |
| Format.DecodeMetadataTable | src/persist/Format.cpp:875-1026 | Agrees with the grammar's reader on every input, including how far the table is filled in when a value cannot be read. |
| Format.DecodeNext | src/persist/Format.cpp:1144-1259 | One turn of the record loop is the grammar's turn: header, bounds, checksum, dispatch, in that order. |
| Format.DecodeRecords | src/persist/Format.cpp:1144-1259 | The loop stops at the first unusable record or at the end, having applied the records before it. |
| Format.ByteWriter.Raw | src/persist/Format.cpp:52-65 | Octets are appended, or the writer is spoilt for good once its limit would be passed. |
| Format.ByteWriter.String | src/persist/Format.cpp:66-75 | Length first, then the octets; a string over its bound spoils the writer. |
| Format.ByteWriter.SampleBitmap | src/persist/Format.cpp:77-97 | How many of the 17 fields are reported, then which, in ascending order. |
| Format.ByteReader.String | src/persist/Format.cpp:168-183 | Consumes a length and that many octets, or fails on an over-long or missing string. |
| Format.ByteReader.SampleBitmap | src/persist/Format.cpp:185-203 | Reads back the set of listed fields, failing on a field that does not exist. |
| Format.ByteReader.Count | src/persist/Format.cpp:552-563 | A count is refused exactly when it exceeds the octets that are left. |
| Crc32c.BuildTable | src/core/Crc32c.cpp:11-23 | The nested loops leave in each entry its index after eight clocks of the register. |
| Crc32c.TableStep | src/core/Crc32c.cpp:29-36 | A look-up and a shift advance the register by exactly eight bit clocks. |
| Crc32c.RunIsBitSerial | src/core/Crc32c.cpp:29-36 | The table-driven register equals the bit-serial definition of CRC-32C on every input. |
| Crc32c.ChecksumOf | src/core/Crc32c.cpp:29-36 | The one-shot loop over the octets computes that checksum. |
| Crc32c.Incremental.Update | src/core/Crc32c.cpp:43-51 | Feeding a piece advances the running state as feeding its octets to the one-shot register does. |
| Crc32c.Incremental.Value | src/core/Crc32c.cpp:57-57 | The value is the checksum of everything fed so far, and taking it disturbs nothing. |
| Crc32c.ChecksumOfParts | src/core/Crc32c.cpp:43-57 | Cutting the input anywhere and feeding the parts gives the one-shot checksum. |
| Crc32c.RunConcat | src/core/Crc32c.cpp:43-51 | Running over a concatenation is running over the second part from where the first ends. |
| Crc32c.RunInjectiveInState | src/core/Crc32c.cpp:29-36 | Different states stay different over any common input. |
| Crc32c.BurstDetected | src/core/Crc32c.cpp:29-36 | Inputs of one length that differ only within four consecutive octets, so in particular in one octet, have different checksums. |
| ApplierProofs.StepKeeps | src/runtime/Observatory.cpp:184-301 | Every step of submitters, workers, start and stop keeps the invariant: pending tickets run from next to apply to next to give out, and an entry being decoded outside the lock stays queued. |
| ApplierTheorems.RunKeeps | src/runtime/Observatory.cpp:68-301 | The invariant holds in every state reachable with any number of workers under any schedule. |
| ApplierTheorems.OrderedApplication | src/runtime/Observatory.cpp:184-254 | The store is what applying the admitted documents one by one in ticket order makes of it when the last of them was applied whole; otherwise a stop has cut that last one, and the store is the same with it cut at that sample. |
| ApplierTheorems.StopCuts | src/runtime/Observatory.cpp:108-126 | A run in which stop leaves the last document cut, at any sample. |
| ApplierTheorems.WorkersDoNotMatter | src/runtime/Observatory.cpp:256-301 | Once drained, any number of workers under any schedule leaves the store that the mode without workers leaves. |
| ApplierTheorems.NothingLost | src/runtime/Observatory.cpp:68-153 | Over any run every accepted submission is applied, dropped, pending or, without workers, refused on the spot, exactly when every start was taken with an empty queue; what starts found queued is what is missing, and without a failed recovery they find nothing. |
| ApplierTheorems.FailedRecoveryLoses | src/runtime/Observatory.cpp:78-98 | A run where a recovery fails, the next start forgets, uncounted, what was queued meanwhile, and a caller waiting for the queue to drain is not told. |
| ApplierTheorems.WaitsExactlyWithoutWork | src/runtime/Observatory.cpp:187-204 | The condition that workers wait for holds exactly when some worker step is enabled or the worker must leave. |
| ApplierTheorems.WorkerStepDecreases | src/runtime/Observatory.cpp:184-254 | Every worker step decreases a measure over undecoded, in-flight and decoded entries. |
| ApplierTheorems.WorkerRunsEnd | src/runtime/Observatory.cpp:184-254 | So a run of worker steps alone is never longer than that measure. |
| ApplierTheorems.StuckMeansDrained | src/runtime/Observatory.cpp:184-254 | When no worker of a running runtime can move, the queue is empty. |
| ApplierTheorems.DrainIsReached | src/runtime/Observatory.cpp:155-159 | Under any schedule worker steps come to an end with an empty queue, and nobody left waiting but who has missed a wake-up. |
| ApplierTheorems.DrainServesIff | src/runtime/Observatory.cpp:77-98 | Where they have come to an end, everybody who called drain has been served exactly when no start was taken over a sleeping caller with the queue not drained and nobody told since. |
| ApplierTheorems.StopIsReached | src/runtime/Observatory.cpp:115-126 | Once the token is raised and everyone told, worker steps come to an end with every worker gone, so that the join returns. |
| Runtime.RegionsMayRun | src/runtime/Observatory.cpp:184-301 | What the locked regions of the code ask of the state holds in every reachable state of the step system. |
| Runtime.Observatory.SubmitDocument | src/runtime/Observatory.cpp:256-301 | The submitting region is the submit step: refused when not running or full, decoded inline without workers, queued with a ticket otherwise. |
| Runtime.Observatory.WorkerTurn | src/runtime/Observatory.cpp:184-254 | From the top of the loop to giving up the lock: leave, wait, apply the front, or take an entry to decode, exactly as the step system does. |
| Runtime.Observatory.BeginDecode | src/runtime/Observatory.cpp:223-240 | Marks the first undecoded entry in flight and moves its text out. |
| Runtime.Observatory.FinishDecode | src/runtime/Observatory.cpp:241-253 | Puts the decoded document back into its own entry, found again by its ticket. |
| Runtime.Observatory.ApplyFront | src/runtime/Observatory.cpp:206-221 | Applies the front entry when it is decoded and its ticket is next, and wakes who waits. |
| Runtime.Observatory.ApplyDecoded | src/runtime/Observatory.cpp:165-182 | Applies tables in order up to the first refused one, then samples up to the first before which the token is seen raised. |
| Runtime.Observatory.FirstUndecoded | src/runtime/Observatory.cpp:223-229 | Finds the entry of the lowest ticket that nobody has decoded or is decoding, if there is one. |
| Runtime.Observatory.Open | src/runtime/Observatory.cpp:68-87 | Clears queue, tickets and token and starts the workers as the start step prescribes. |
| Runtime.Observatory.StartRecovered | src/runtime/Observatory.cpp:89-105 | Only a successful recovery makes the runtime run; a failed one leaves it stopped. |
| Runtime.Observatory.RaiseToken | src/runtime/Observatory.cpp:115-116 | The token is raised outside the queue lock. |
| Runtime.Observatory.DiscardPending | src/runtime/Observatory.cpp:128-141 | After the join the remaining entries are counted as dropped and discarded. |
| Runtime.Observatory.DrainLooks | src/runtime/Observatory.cpp:155-159 | A drain call returns exactly when the queue is empty and nothing is being decoded, and else goes to sleep. |
| Protocol.FrameRoundTrip | src/transport/Protocol.cpp:66-150 | An encoded frame is read back whole and its octets taken off the stream, whatever follows. |
| Protocol.AcceptsExactlyImages | src/transport/Protocol.cpp:95-150 | The decoder accepts the images of admissible frames and nothing else. |
| Protocol.SurvivesIffLengthFits | src/transport/Protocol.cpp:66-93 | The size field of a payload of 2^32 octets or more wraps: an encoded frame survives exactly when its payload is shorter. |
| Protocol.ParseIsLocal | src/transport/Protocol.cpp:95-150 | What follows a decided frame does not change the decision. |
| Protocol.ChunkingInvariance | src/transport/Protocol.cpp:152-181 | However a stream is cut, as long as no chunk is refused the same frames come out in the same order, and the same error after the same frame. |
| Protocol.SameStreamSameFrames | src/transport/Server.cpp:246-301 | Two cuttings of one stream cannot be told apart by what the connection receives. |
| Protocol.StreamOfFrames | src/transport/Protocol.cpp:66-181 | A stream of encoded frames yields exactly those frames, followed by what follows them. |
| Protocol.Delivery | src/transport/Server.cpp:246-301 | Sent as frames and received in any pieces that fit the buffer: what arrives is what was sent. |
| Protocol.RoomForOneFrameSuffices | src/transport/Protocol.cpp:152-161 | A buffer with room for one frame short of an octet and one more chunk refuses no chunk. |
| Protocol.DamagedFrameRefused | src/transport/Protocol.cpp:106-142 | Up to four consecutive changed octets outside the length field: the frame is refused, neither delivered nor waited for. |
| Protocol.EncodeFrame | src/transport/Protocol.cpp:66-93 | Produces the frame's image, or refuses invalid limits or a payload over the limit. |
| Protocol.DecodeFrame | src/transport/Protocol.cpp:95-150 | Needs more, refuses or delivers as the parse of the octets says, for all octets. |
| Protocol.FrameReader.Append | src/transport/Protocol.cpp:152-161 | Appends to the buffer or, over the limit, refuses and leaves it as it was. |
| Protocol.FrameReader.Next | src/transport/Protocol.cpp:163-181 | Takes the next whole frame off the front, or leaves the buffer untouched. |
| Protocol.FrameReader.Drain | src/transport/Server.cpp:255-299 | Takes every whole frame up to the first failure. |
| Protocol.Serve | src/transport/Server.cpp:246-301 | The receive loop delivers what the reassembly of all received pieces defines. |
| Admission.JudgeAdvances | src/store/Store.cpp:625-700 | Whatever a sample says, a source's (incarnation ordinal, last sequence) never goes back and strictly advances when the sample passes every fence; generation and authority never go down; tokens stay distinct, in descending order, headed by the current one. |
| Admission.StaleTokenIff | src/store/Store.cpp:628-645 | A sample is fenced for its token exactly when that token is remembered and not the current one. |
| Admission.SupersededIsFenced | src/store/Store.cpp:628-654 | The three most recently superseded tokens, being remembered, are always fenced. |
| Admission.FenceLeavesNothingIff | src/store/Store.cpp:625-692 | A fenced sample leaves nothing but tallies behind exactly when it failed at the first thing in which it differs from the record; otherwise it has already switched incarnation or generation. |
| Admission.ForgottenTokenReturns | src/store/Store.cpp:646-658 | A token that has been forgotten counts as new again, whatever the sample's sequence number. |
| Admission.RemembersLatestLives | src/store/Store.cpp:646-654 | Over any run the record remembers exactly the latest four tokens that were current. |
| StoreRuns.AtMostOnce | src/store/Store.cpp:599-700 | Over any run no sample of one life of a source is admitted twice: admissions strictly ascend by life and sequence number. |
| StoreRuns.LaterStandsBehind | src/store/Store.cpp:599-700 | Whatever is admitted later stands behind what is on record now, in every run. |
| StoreRuns.RefusedForRoomIsSpent | src/store/Store.cpp:694-717 | A sample that passed the fences and then found no room has used up its sequence number: presented again it is a duplicate. |
| StoreTheorems.IngestedKeeps | src/store/Store.cpp:546-921 | Presenting any sample keeps the books: presented is accepted plus rejected plus fenced, pushed minus evicted is what the rings hold, history bytes are queues times the cost and within budget, conflicts detected minus cleared are the queues in conflict, the log holds the newest events. |
| StoreTheorems.BooksBalance | src/store/Store.cpp:932-990 | The same over every run of batches. |
| StoreTheorems.OpenedHolds | src/store/Store.cpp:207-257 | A new store satisfies the books. |
| StoreTheorems.LogHoldsNewest | src/store/Store.cpp:278-296 | The event log holds the newest events in order and counts all others as evicted. |
| StoreRuns.RingsHoldNewest | src/store/Store.cpp:849-870 | Over every run each ring holds exactly the newest records admitted for its queue, in order, as many as it has room for. |
| StoreRuns.RingsFromOpening | src/store/Store.cpp:849-870 | From a new store on, that is the newest records admitted, up to the configured number. |
| StoreRuns.RecoveredLeavesQueueOld | src/store/Store.cpp:373-415 | Admitting a recovered sample leaves its queue Stale or Conflicting. |
| StoreRuns.RecoveredNeverCurrent | src/store/Store.cpp:320-415 | Over any mix of ingest and recovery each ring retains the newest records of its queue, and those among them that came from recovery fail to establish current pressure. |
| StoreRuns.ConflictAfterIff | src/store/Store.cpp:456-544 | After an admitted sample its queue is in conflict exactly when some recent peer of the source's authority had reported the same quantity too differently; so a sample without occupancy ends a conflict. |
| StoreRuns.NoMismatchRecorded | src/store/Store.cpp:320-371 | Over any run no retained record carries the flag of a clock domain mismatch: the source's domain is overwritten before the comparison. |
| StoreWindows.UnfitRecordKeepsIncomplete | src/store/Store.cpp:1168-1174 | A window that contains, after expiry, a recovered record, one of low authority, or one with an unknown delta is never complete, in whatever order the records were received. |
| StoreWindows.ContainedInOrder | src/store/Store.cpp:1168-1174 | Among records in order of receive time a window contains each whose bucket is still there. |
| StoreWindows.RecoveredNeverComplete | src/store/Store.cpp:373-415 | Over any mix of ingest and recovery no window over a queue's history that contains a recovered record is complete. |
| StoreRuns.SumsIgnoreOrigin | src/store/Store.cpp:64-99 | Neither age nor origin nor authority of a record matters to the window sums. |
| RecoveredSums.RecoveredDropsDecide | src/store/Store.cpp:811-834 | A run from a new store in which two recovered reports make a later, fresh sample Dropping although its own drop counter has not moved. |
| RecoveredSums.RecoveredMatterIff | src/store/Store.cpp:64-99 | Short of saturation, recovered records leave a window sum as it would be without them exactly when each adds nothing and, where any of them is known, a fresh one is too. |
| RecoveredSums.SumIs | src/store/Store.cpp:51-99 | A window sum is known when any record contributes, and is the lesser of the true total and 2^64-1. |
| StoreCode.QueueStore.IngestLocked | src/store/Store.cpp:546-921 | The method's effect on the whole store, and its result, are those of the specified presentation of the sample. |
| StoreCode.QueueStore.IngestBatch | src/store/Store.cpp:932-990 | A batch is presented sample by sample until the token is seen raised; what was not presented is left out. |
| StoreCode.QueueStore.AdmitRecovered | src/store/Store.cpp:373-415 | Each sample of the batch is presented as read back from persistence, in order, whatever becomes of the others. |
| StoreCode.QueueStore.LookAtSource | src/store/Store.cpp:599-700 | An unknown source is registered if there is room; a known one is judged. |
| StoreCode.JudgeKnown | src/store/Store.cpp:625-692 | The fences in order, each leaving what was changed before it. |
| StoreCode.QueueStore.AcquireQueue | src/store/Store.cpp:298-318 | A queue is found, or made if number and byte budget allow, charging its cost once. |
| StoreCode.QueueStore.RecordEvent | src/store/Store.cpp:278-296 | An event is appended, the oldest making room when the log is full. |
| StoreCode.QueueStore.DetectConflict | src/store/Store.cpp:456-544 | Opens a conflict on the first contradiction, keeps it, or closes it, as specified. |
| StoreCode.QueueStore.CloseConflict | src/store/Store.cpp:530-540 | The newest active conflict of the queue is marked cleared and no other entry touched. |
| StoreCode.QueueStore.TakeSample | src/store/Store.cpp:747-919 | Counters, assessment, conflict, classification, history and peers of the queue all follow from the sample as specified. |
| StoreCode.InterpretCounters | src/store/Store.cpp:750-806 | Every reported counter field is folded in, in field order, and no other is touched. |
| History.HistoryRing.Push | src/store/History.cpp:27-40 | The abstract list gets the record at its end and loses its oldest when full, which is counted. |
| History.HistoryRing.At | src/store/History.cpp:42-47 | The i-th oldest record. |
| History.HistoryRing.Snapshot | src/store/History.cpp:49-56 | The records, oldest first. |
| History.HistoryRing.Since | src/store/History.cpp:58-75 | The scan from the newest back, turned around, gives the specified tail of the list. |
| History.HoldsNewest | src/store/History.cpp:27-40 | After any pushes the ring holds the newest ones in order and counts all others as evicted. |
| History.SinceIsFilter | src/store/History.cpp:58-75 | Over records in ascending receive time the early stop misses nothing: the result is all records not older than the time. |
| History.TurnAround | src/store/History.cpp:58-75 | Swapping from both ends reverses the list. |
| Window.ValidateWindowSpec | src/store/Window.cpp:48-85 | Accepts exactly the specifications with positive sizes, a bucket no longer than the window, and between one and the permitted number of buckets. |
| Window.AlignIsFloor | src/store/Window.cpp:36-46 | The aligned time is the greatest multiple of the bucket width not after the time, for negative times too. |
| Window.ObservedSound | src/store/Window.cpp:159-209 | Whatever arrives in whatever order: starts stay distinct and aligned, their number within the window's, and every observation is retained, evicted or late. |
| Window.ExpiredSound | src/store/Window.cpp:145-157 | Expiry keeps all of that, at any time. |
| WindowRefinement.AlwaysSound | src/store/Window.cpp:87-209 | The same over every sequence of observations: observations equal retained plus evicted plus late-dropped. |
| WindowRefinement.HoldsExactlyCurrent | src/store/Window.cpp:113-209 | For non-decreasing receive times the window consists of the newest current starts of the direct grouping, ascending, each with all its observations. |
| WindowRefinement.ExpiredHoldsCurrent | src/store/Window.cpp:145-157 | Expiring at a later time leaves exactly what is current then. |
| WindowRefinement.AddedSummarises | src/store/Window.cpp:159-209 | A bucket has the count, minimum, maximum and last of its observations, and sums equal to the lesser of the true sum and 2^64-1. |
| WindowRefinement.MisplacedIff | src/store/Window.cpp:113-143 | The buckets stay in order unless a start falls into a gap between those retained: it then goes behind the newest. |
| Buckets.BucketAccumulator.Configure | src/store/Window.cpp:87-100 | An accepted specification gives an empty window of its bucket count; a refused one changes nothing. |
| Buckets.BucketAccumulator.Expire | src/store/Window.cpp:145-157 | The circular array forgets exactly the leading buckets that start before the cutoff. |
| Buckets.BucketAccumulator.FindOrCreateBucket | src/store/Window.cpp:113-143 | The bucket of a start is found from the newest back, or made behind the newest, the oldest making room. |
| Buckets.BucketAccumulator.Observe | src/store/Window.cpp:159-209 | The array in place represents the specified window after the observation. |
| Buckets.BucketAccumulator.Aggregate | src/store/Window.cpp:221-315 | Covered buckets, totals, extremes and quality are those of the retained buckets as specified. |
| Buckets.BucketAccumulator.BurstEvidence | src/store/Window.cpp:317-368 | Highest and lowest occupancy over the covered buckets, each where it was first reached. |
| Buckets.TotalsAre | src/store/Window.cpp:221-278 | Counts add up exactly; sums across buckets are exact only up to wrapping around 64 bits. |
| Buckets.CompleteIff | src/store/Window.cpp:280-312 | For observations in order, before expiry: complete exactly when enough buckets are covered and every observation of their starts has known deltas and may speak for the present. |
| WindowContents.BucketsSummariseLive | src/store/Window.cpp:113-209 | In whatever order observations arrive, every bucket summarises exactly what it has been given since it was made, and that is something. |
| WindowContents.LiveIsMembers | src/store/Window.cpp:113-209 | For non-decreasing receive times that is all observations of the bucket's start. |
| WindowContents.ShownCompleteIff | src/store/Window.cpp:221-315 | After expiry at any time an aggregate is complete exactly when enough buckets are left and every observation they were given has known deltas and may speak for the present, in whatever order they came. |
| JsonProofs.StringReads | src/core/Json.cpp:210-298 | Reading undoes escaping for every octet string, up to the limit on strings, beyond which it is refused. |
| JsonProofs.NumberReads | src/core/Json.cpp:325-394 | Every written 64-bit integer is read back exactly, non-negative signed ones as unsigned. |
| JsonProofs.DocumentReadsIff | src/core/Json.cpp:77-208 | The text of a value, pretty or compact, is taken back as that value exactly when it fits the limits on size, depth, nodes, strings, members and elements and no object has a name twice; otherwise it is refused. |
| JsonDraft.CompleteIff | src/core/Json.cpp:549-705 | A sequence of writer calls has no error and closes every frame exactly when it is the sequence for the value it builds. |
| JsonDraft.WrittenIsReadBack | src/core/Json.cpp:549-705 | Every error-free call sequence that closes all frames writes a text that the reader takes back, when it fits the limits and only then, as the value written. |
| JsonDraft.ValueFed | src/core/Json.cpp:571-652 | Wherever a value may be written, its calls write it. |
| JsonCode.EscapeJson | src/core/Text.cpp:127-166 | The loop produces the escaped form of every octet string. |
| JsonCode.JsonWriter.BeforeValue | src/core/Json.cpp:571-599 | A value is accepted exactly at top level before any other, after a member name, or in an array; an array element is separated from the one before it. |
| JsonCode.JsonWriter.BeginObject | src/core/Json.cpp:601-608 | Opens an object in the value under construction, or records the first error. |
| JsonCode.JsonWriter.EndObject | src/core/Json.cpp:610-627 | Closes an object without a pending name, or records the first error. |
| JsonCode.JsonWriter.BeginArray | src/core/Json.cpp:629-636 | Opens an array in the value under construction, or records the first error. |
| JsonCode.JsonWriter.EndArray | src/core/Json.cpp:638-652 | Closes the innermost frame when it is an array, or records the first error. |
| JsonCode.JsonWriter.Key | src/core/Json.cpp:654-673 | Names the next member directly inside an object, or records the first error. |
| JsonCode.JsonWriter.ValueString | src/core/Json.cpp:675-681 | Puts a string where a value is waited for; the buffer is always the text of the value under construction. |
| JsonCode.JsonWriter.ValueU64 | src/core/Json.cpp:683-687 | The same for an unsigned number. |
| JsonCode.JsonWriter.ValueI64 | src/core/Json.cpp:689-693 | The same for a signed number. |
| JsonCode.JsonWriter.ValueBool | src/core/Json.cpp:695-699 | The same for a truth value. |
| JsonCode.JsonWriter.ValueNull | src/core/Json.cpp:701-705 | The same for null. |
| JsonCode.JsonWriter.MemberString | src/core/Json.cpp:738-741 | A name and then its string, or the first error. |
| JsonCode.JsonWriter.MemberU64 | src/core/Json.cpp:743-746 | A name and then its number, or the first error. |
| JsonCode.JsonWriter.MemberI64 | src/core/Json.cpp:748-751 | A name and then its signed number, or the first error. |
| JsonCode.Parser.ParseValueAt | src/core/Json.cpp:77-109 | Depth and node limits first, then the value its first octet announces; value, place and node count are the grammar's. |
| JsonCode.Parser.ParseObjectAt | src/core/Json.cpp:121-172 | Members up to the closing brace, a repeated name and too many members refused. |
| JsonCode.Parser.ParseArrayAt | src/core/Json.cpp:174-208 | Elements up to the closing bracket, too many refused. |
| JsonCode.Parser.ParseStringAt | src/core/Json.cpp:210-298 | The octets that the string stands for, escapes and surrogate pairs resolved, or a refusal. |
| JsonCode.Parser.ParseHex4 | src/core/Json.cpp:300-323 | The number of four hexadecimal digits of either case, or a refusal. |
| JsonCode.Parser.ParseNumberAt | src/core/Json.cpp:325-394 | The longest number of the grammar; integers out of 64 bits are refused. |
| JsonCode.AppendUtf8 | src/core/Json.cpp:18-34 | The UTF-8 form of a code point. |
| JsonCode.ParseJson | src/core/Json.cpp:526-533 | A document is one value with nothing after it but blanks, within the byte limit. |
| WireTheorems.SampleRoundTripIff | src/ingest/Decode.cpp:818-861 | Every sample comes back from its record, equal in all that the wire carries and with absent fields absent, exactly when its names would pass validation, its observation time is not negative, one of the 17 measurements is reported and the record is within the limits on JSON; else its record is malformed to the decoder. |
| WireTheorems.EncodableYetMalformed | include/qobs/ingest/Wire.hpp:84-88 | The encoder accepts a sample with a negative observation time whose record its own decoder calls malformed. |
| WireTheorems.LineLimitIsFar | include/qobs/ingest/Wire.hpp:38-39 | No record of a sample with valid names comes near the limit on the length of a line. |
| WireProofs.SampleBack | src/ingest/Decode.cpp:118-323 | Given the written members, the record reader returns the sample as carried, or refuses it. |
| WireProofs.KeysDiffer | src/ingest/Decode.cpp:17-38 | No two of the 33 member names are the same. |
| WireTheorems.LineIsolation | src/ingest/Decode.cpp:647-783 | While no limit is met, two documents joined by a newline give what they give apart, one after the other, diagnostics with their line numbers included, whatever malformed lines either holds. |
| WireTheorems.LinesStandAlone | src/ingest/Decode.cpp:647-783 | The same for any two lists of lines. |
| WireTheorems.BadLineHidesNothing | src/ingest/Decode.cpp:647-783 | Putting in a line that yields no record changes none of the records before or after it, limits or no limits. |
| WireTheorems.RoomMeansNoLimit | src/ingest/Decode.cpp:722-757 | A limit is met only by a document that already holds that many samples or tables. |
| WireTheorems.LinesAccount | src/ingest/Decode.cpp:647-783 | In every outcome lines are records plus malformed plus unsupported plus version mismatches, diagnostics are those refusals up to 64, and samples and tables are within the limits. |
| WireCode.DecodeDocument | src/ingest/Decode.cpp:627-784 | The cursor loop decodes the lines of the payload in order, for all octets. |
| WireCode.DecodeLine | src/ingest/Decode.cpp:653-783 | One line changes the outcome as specified: skipped, refused for one reason, or one record. |
| WireCode.ClassifyLine | src/ingest/Decode.cpp:653-722 | What a line holds: carriage return and blanks cut, comments skipped, JSON, kind and version checked in that order. |
| WireCode.ParseSampleRecord | src/ingest/Decode.cpp:118-323 | The sample of a record and the number of names not recognised, or the reason it is refused. |
| WireCode.ReadFields | src/ingest/Decode.cpp:243-254 | Each measurement that is present must be a number and is the only one set. |
| WireCode.ReadDeclaredNames | src/ingest/Decode.cpp:263-284 | Known names are collected, unknown ones counted, anything but a string refused. |
| WireCode.CountUnknown | src/ingest/Decode.cpp:286-317 | Counts the members whose name no record uses. |
| WireCode.EncodeSample | src/ingest/Decode.cpp:818-861 | Refuses exactly what the canonical form does not admit; otherwise the text is that of the sample's record. |
| WireCode.ValidateEncodable | src/ingest/Decode.cpp:786-816 | Accepts exactly the samples with a path, source, token, generation, sequence, clock domain and at least one reported bit. |
| Counter.ClaimIsTrue | src/model/Counter.cpp:67-205 | For one never-reset counter read modulo 2^32 that keeps to the rate bound, every Continuous or Wrapped delta is the true advance, where the bound times the gap fits 64 bits. |
| Counter.DeterminedIff | src/model/Counter.cpp:134-190 | Two readings and the bound leave one possible advance exactly when one lap more than the difference would be too fast. |
| Counter.ClaimsWhatIsDetermined | src/model/Counter.cpp:134-190 | The code claims a change exactly where the readings determine it; equal readings are claimed unchanged even where a whole lap was possible. |
| Counter.NothingDeterminedWithoutRate | src/model/Counter.cpp:16-26 | Without a usable rate bound a difference of 32-bit readings never determines the advance. |
| Counter.TotalIsSum | src/model/Counter.cpp:67-205 | The known total is the sum of the claimed deltas, and every reading after the first is tallied once, as known or unknown. |
| Counter.KnownStretchAgrees | src/model/Counter.cpp:67-205 | Over a stretch of known deltas baseline plus their sum is congruent to the last reading modulo 2^32. |
| Counter.ClaimsAddUp | src/model/Counter.cpp:67-205 | Over any stretch of claimed movement the claims add up to the true advance. |
| Counter.OneLapIff | src/model/Counter.cpp:166-187 | A backwards reading is one lap's distance exactly when the earlier reading is at most one lap ahead of it. |
| Counter.WideBaseline | src/model/Counter.cpp:71-81 | A first reading wider than the counter passes unchecked and makes the second one claim a delta that is no advance of such a counter. |
| Counter.RefusedReadingHidesTime | src/model/Counter.cpp:83-94 | A run where, after a refused reading, a claim misses a lap that the bound allowed over the true time. |
| Counter.ClaimAfterRefusedIff | src/model/Counter.cpp:83-187 | After any run of refused readings, the delta claimed for the next good one is right for every advance the bound allows exactly when one lap more would have been too fast over the time since the last good reading. |
| Counter.MaxAdvanceInGap | src/model/Counter.cpp:16-26 | The bound times the gap in whole nanoseconds, or nothing when it is absent or does not fit. |
| Counter.CounterState.UpdateCounter | src/model/Counter.cpp:67-205 | The fields after the reading and the returned update are those of the specified reading. |
| Counter.CounterState.InterpretChange | src/model/Counter.cpp:142-205 | How far a changed reading is taken to have gone, per width and bound. |
| Time.DayRoundTrip | src/core/Time.cpp:15-40 | Every day number is a valid date of the proleptic Gregorian calendar, and that date's day number is it. |
| Time.DateRoundTrip | src/core/Time.cpp:15-40 | Every valid date is the date of its day number. |
| Time.CountsDays | src/core/Time.cpp:15-24 | The day number is 0 on 1970-01-01 and grows by one from each date to the next, leap days included. |
| Time.TimestampRoundTrip | src/core/Time.cpp:107-258 | Parsing a printed time gives it back exactly from the epoch on, and before it exactly on the stroke of midnight. |
| Time.FormatWallUtc | src/core/Time.cpp:107-159 | The printed text is the stamp of the date and time of day that the code computes, without borrowing a day before the epoch. |
| Time.ParseWallUtc | src/core/Time.cpp:165-258 | Accepts and evaluates exactly the texts of the form of stamps with each field in its own range (a day up to 31 in every month), within 64-bit nanoseconds. |
| Time.AcceptedDateIff | src/core/Time.cpp:204-257 | An accepted text names the date that its value falls on exactly when the calendar has that date and the text does not name second 60 of 23:59; a day that the month does not have is counted on into the next month. |
| Time.AcceptedValue | src/core/Time.cpp:204-257 | The value of an accepted text is its day number in seconds plus the seconds named, 60 included, so that second 60 is the first of the next minute. |
| Time.NamedDateIff | src/core/Time.cpp:15-24 | For any month and any day up to 31 the day number is that of the date spilled over to, so it stands for the date named exactly when that date is valid. |
| Time.NoSuchDayAccepted | src/core/Time.cpp:204-208 | The text 2023-02-31T00:00:00Z is accepted, as 3 March. |
| Time.ParseFraction | src/core/Time.cpp:216-232 | Up to nine fraction digits as nanoseconds. |
| Time.DigitsAt | src/core/Time.cpp:179-191 | The number of so many digits at a place, or a refusal. |
| Text.ParseU64 | src/core/Text.cpp:196-213 | Accepts exactly the non-empty digit strings whose number fits 64 bits. |
| Text.ParseI64 | src/core/Text.cpp:215-251 | Accepts exactly the optionally negative digit strings whose number is a signed 64-bit one. |
| Text.SignedRoundTrip | src/core/Text.cpp:215-251 | Every printed signed number is parsed back. |
| Text.Trim | src/core/Text.cpp:28-48 | The loop cuts what the specified trimming cuts. |
| Text.TrimShape | src/core/Text.cpp:28-48 | Trimming cuts blanks and only blanks off both ends, as far as they go. |
| Text.TrimmedUnique | src/core/Text.cpp:28-48 | No other way of cutting blanks off both ends stops at something else. |
| Checked.MulU64 | src/core/Checked.cpp:22-30 | The exact product or nothing. |
| Checked.DivCeilU64 | src/core/Checked.cpp:32-42 | The least quotient that covers the dividend, or nothing for a zero divisor. |
| Checked.AddI64 | src/core/Checked.cpp:44-52 | The exact sum or nothing. |
| Checked.MulI64 | src/core/Checked.cpp:61-76 | The exact product or nothing, if the signed product that the code forms first wraps. |
| Policy.ThresholdMetIff | src/policy/Policy.cpp:211-229 | A relative threshold is met exactly when 1000 times the value is at least limit times per-mille; it exists exactly when that product fits 64 bits. |
| Policy.ThresholdsAscend | src/policy/Policy.cpp:211-229 | Larger fractions of one limit make larger thresholds. |
| Classification.MissingIsNotZero | src/policy/Classification.cpp:65-402 | Inputs that agree on reported fields and known deltas get the same state, the same trace with its operands and thresholds, and so the same of anything rendered from them. |
| Classification.TraceIsPath | src/policy/Classification.cpp:166-402 | The trace is the rules in order up to the deciding one, only the last of them matched, and truthful about each. |
| Classification.TraceNumbersTell | src/policy/Classification.cpp:174-183 | The operands and thresholds in the trace bear it out: a rule from drops to elevation that matched shows an operand that reaches its threshold, a level that did not and has a threshold shows one that does not. |
| Classification.AuthorityIgnored | src/policy/Classification.cpp:166-402 | The authority of the source plays no part in the decision. |
| Classification.LowAuthorityIsHeard | src/policy/Classification.cpp:190-402 | A source of unknown authority can put a queue into any state that a primary one can. |
| Classification.SpeaksForPresentIff | src/model/Evidence.cpp:141-155 | A state about the present rests on evidence that establishes current pressure exactly when that evidence is complete, not recovered and of at least primary authority. |
| Classification.LevelsNest | src/policy/Classification.cpp:309-378 | With limits reported each level implies the ones below it, under a valid policy. |
| Classification.FullerIsNoHealthier | src/policy/Classification.cpp:166-402 | A fuller queue never gets a healthier state, all else equal. |
| Classification.ClassifyInput | src/policy/Classification.cpp:166-402 | Returning early rule by rule gives the first matching rule's state and the trace up to it. |
| Classification.ClassifyLevels | src/policy/Classification.cpp:273-307 | The same for the rules on drops and pauses. |
| Classification.ClassifyOccupancy | src/policy/Classification.cpp:309-402 | The same for the rules from saturation on. |
| Evidence.FreshnessOnlyFades | src/model/Evidence.cpp:25-43 | Under a coherent policy evidence never gets fresher with age. |

## Left out

- WindowRefinement.HoldsExactlyCurrent: does not cover observations whose bucket would start before the least 64-bit time, because the code's arithmetic overflows there.
- WindowRefinement.ExpiredHoldsCurrent: the same.
- WindowContents.LiveIsMembers: the same.
- StoreWindows.ContainedInOrder: the same.
- SegmentDamage.HeaderDamageRefused: a burst across the right edge of the checksum field is left out, because the policy version behind it can be changed together with the checksum to match.
- SegmentHeads.DamagedHeadContained: does not cover damage to the length of a record, or to its checksum together with its type, because either can leave a record that checks.
- Format.EncodeSnapshot: says of a snapshot that is not in normal form only what an accepted one becomes.
- JsonProofs.DocumentReadsIff: is about values without fractions and exponents; a number that has one is kept as its text, because floating-point conversion is not modelled.
- JsonCode.Parser.ParseNumberAt: accepts every fraction and exponent of the grammar; the refusal of one that is no finite double (src/core/Json.cpp:368-376) is not modelled.
- Protocol.Serve: what handling a frame does is not modelled, nor that a Bye or a failure to answer ends the loop (src/transport/Server.cpp:246-301).
- WireTheorems.LineIsolation: how a class metadata record is read is a parameter, any function of its members; the branches of src/ingest/Decode.cpp:325-592 are not part of this model.
- StoreCode.QueueStore.IngestLocked: whether class attributes were derived from metadata is an input of the presentation, and first-seen and last-seen times of sources are not kept.
- StoreTheorems.BooksBalance: tallies are unbounded numbers; their wrapping after 2^64 events is not modelled.
- StoreCode.QueueStore.TakeSample: a queue's ring is held as a value; that the circular class represents such a value is proved in `History`.
- Runtime.Observatory.StartRecovered: what recovery reads from disk is a parameter.
- Runtime.Observatory.SubmitDocument: the gauge of queued samples is not kept.
- ApplierTheorems.DrainIsReached: speaks of runs of worker steps; that the operating system schedules the workers is not modelled.
- Counter.CounterState.UpdateCounter: the texts of the reasons are not kept; their codes are.
- Sockets, the accept loop, and client and server plumbing other than the receive loop.
- Files: fsync, rename, selection and rotation of segments in src/persist/Persistence.cpp.
- The command line, report renderers, examples, benchmarks and version strings.
- `value_fixed` and `value_passthrough` of the JSON writer; `parse_prefix` of the reader.
- Texts of reasons, diagnostics and events; the explanation digest is any function of the result.
- Queries, filters, paging, export, and resolution and validation of class metadata.
- `contention` and the microburst query beyond the burst evidence of a window; validation of microburst and contention policies.
- `LockAudit`, real clocks, and memory ordering: receive times are inputs and lock-protected regions are atomic steps.
- Signed overflow at extreme negative times, which the language leaves undefined.
- Checked.MulI64: takes the signed product that src/core/Checked.cpp:71 forms before dividing back as wrapping; the language leaves its overflow undefined.
- StoreCode.QueueStore.AdmitRecovered: recovered mode is a mark on each presentation, so that the code sets and resets a flag around the batch is not modelled.
- Classification.ClassifyInput: the detail texts of the trace are not kept; rules, operands and thresholds are.
