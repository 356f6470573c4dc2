# muc-opcua in Dafny

muc-opcua is an OPC UA server without a heap: fixed arrays, ring buffers, buffers
rewritten in place, integer timers and wire codecs. This project models its hard
core in the Standard subscription build with a single connection, and proves what
holds over every run of it.

The engine of `src/services/subscription.c` is modelled twice. Once as objects
that change their fields in place, with the loops of the source; and once as a
value, the `Machine`, with one function per step. Every method is proved to do to
the objects exactly what its function does to the value (`Engines.Engine.Step`,
`Engines.Engine.Run`), so what is proved of runs of the machine holds of runs of
the objects. Every monitored item keeps a ledger of what was ever reported to it,
what it kept, and what was delivered; every Subscription keeps the data messages
it sent. Counting, writing and draining all go by one sequence of notices
(`Selection.Selected`).

The main results about runs of any length, over every service that touches a
Subscription or an item and over every tick:

- the account of an item is exactly what was reported to it since it was created,
  in order (`Runs.EnqueuedIsReported`), and what was delivered to it is exactly
  what the data messages sent since then say of it (`Runs.DeliveredIsTold`);
- the k-th data message of a Subscription carries the k-th number, and its bytes
  are those of what it says (`Runs.MessagesAreNumbered`);
- a message sent by a tick can be republished, byte for byte, exactly if it has at
  most 256 bytes (`Retentions.SentCanBeRepublished`), and over every run until it
  is acknowledged, replaced or deleted (`Retentions.RepublishedUntilDisturbed`);
- ids are unique, counters exact and every live item has a live Subscription
  (`Runs.NextValid`), and no session's request touches what belongs to another
  session (`Frames.SessionsAreApart`).

What those steps do is also said without them, in terms of what a client sends and
gets. A client's decoder reads every answer of a cycle, with more notifications
flagged exactly if the entries it reads are fewer than those due
(`Answers.CycleTellsTheClient`). Which samples become reports is said in terms of
statuses, values and the deadband (`Samplings.ReportedExactly`); which entries a
cycle takes, in terms of modes and links (`Selection.SelectedExactly`); and what
each service changes, in terms of its parameters (`Observed.dfy`). `Vectors.dfy`
does the same for the bytes of the encodings.

Writers are modelled down to the state a failure leaves. A value is a sequence of
steps (`Steps`), and every writing method is proved to lay down exactly those, up
to the first that fails; what the steps add up to is the encoding.

Around the engine stand the pools with their id allocation, the receive buffer,
the sequence numbers, the NodeId index, the symmetric and asymmetric chunk
protection, the sessions, the dynamic address space, and the binary and UADP
codecs, each with its laws.

| file | what it holds |
|---|---|
| `Types.dfy`, `Wire.dfy`, `Codec.dfy` | integer widths, statuses, values; little-endian bytes; OPC UA Binary as functions |
| `Steps.dfy`, `Cursors.dfy`, `Uadp.dfy`, `Vectors.dfy` | writing step by step; the sticky-status writer and reader; the UADP NetworkMessage; the encodings byte by byte |
| `Duration.dfy`, `Timers.dfy` | Duration bits against milliseconds; sampling and publishing timers |
| `Ledger.dfy`, `ItemState.dfy`, `Items.dfy`, `Sampling.dfy` | the account of a queue over a run; an item as a value; the ring, the deadband, the sampling step in place; which samples are reported, and when |
| `Selection.dfy`, `PoolState.dfy`, `Draining.dfy` | what a cycle is about; all items as values; draining in place |
| `Notification.dfy`, `Publishing.dfy`, `Response.dfy`, `Message.dfy` | the notification's bytes; count and write; the PublishResponse; the client's reading of it |
| `SubState.dfy`, `CycleState.dfy`, `Cycle.dfy`, `Progress.dfy`, `Answers.dfy` | a Subscription and one publish cycle as values; the cycle in place; what cycles in a row get done; what a cycle tells the client |
| `Registry.dfy`, `Machine.dfy`, `Runs.dfy`, `Frames.dfy`, `Engine.dfy` | ids, counts and ownership in the pools; the steps as functions; whole runs; what a step leaves alone; the operations in place |
| `Observed.dfy`, `Retention.dfy` | what each service call changes, as its caller sees it; which messages can be republished |
| `Framing.dfy`, `Sequence.dfy` | stream reassembly; sequence numbers in and out |
| `NodeIndex.dfy`, `DynamicSpace.dfy`, `AutomaticIds.dfy` | NodeId order, index and layered lookup; nodes and references with owned strings; ids made up by the server |
| `SymChunk.dfy`, `OpnHeader.dfy`, `AsymChunk.dfy` | chunk protection with crypto as functions |
| `Identifiers.dfy`, `Sessions.dfy`, `Closing.dfy` | session ids and tokens; the slots and the service gate; CloseSession and the Subscriptions |

Capacities are arbitrary. What comes from outside (reads of node values, clocks,
entropy, emission results, crypto, the transport) is a parameter.

## Where the code falls short

Each of these is a lemma with the input that shows it and the exact condition
under which the code does what is promised.

- The sample timer stands still when the 64-bit step count wraps, which needs an
  interval of at most 1 ms, a timer at 0 and the clock at its maximum
  (`Timers.SampleTimerStalls`, `Timers.SampleTimerExact`).
- A NaN decides no deadband comparison, so a change to or from NaN is held back
  (`ItemStates.NaNIsHeldBack`, `ItemStates.HeldBackIsCovered`).
- The UADP encoder reports success for a message with bytes missing exactly if
  some field has no encoding or outgrows the room where it starts, without a
  primitive running out of room (`Uadp.SilentLoss`). Such a message is never read
  back as itself (`Uadp.ReadBackExactlyIfComplete`); the decoder refuses some
  (`Uadp.OverrunIsRefused`) and takes others for another message
  (`Uadp.AnotherMessageIsAccepted`).
- A PublishRequest is dropped without any answer if the first entry that cannot
  be encoded is reached within the buffer and holds a string of more than 4096
  bytes; every other value that cannot be sent gets the fault
  (`CycleStates.UnsendableIsDroppedOrFaulted`, `CycleStates.OverlongIsDropped`).
- A batch that fits no answer is never delivered while nothing is sampled: every
  cycle takes a request for it in vain (`Progress.StuckForever`,
  `Progress.BuildableMovesOn`).
- Variant arrays are written but never read back (`Codec.ArraysAreNotRead`).
- Asymmetric padding of more than 255 bytes comes back as part of the body; keys
  of 2048 bits never need so much (`AsymChunk.RoundTrip`,
  `AsymChunk.ExactUpTo255`, `AsymChunk.ExactForShortKeys`,
  `AsymChunk.LargeKeysOverflow`).
- A secured wrap that fails has already taken a sequence number, and the next
  chunk is refused by the peer (`Sequence.GapRefused`).
- Any two GUIDs, or opaque ids, of a namespace are one to the index, so a lookup
  answers with the node of another GUID; a scan finds none
  (`NodeIndex.WrongNodeIsFound`, `NodeIndex.UnsupportedKeys`).
- An automatic NodeId repeats exactly if a live node has its number, which
  deletions and requested ids bring about (`AutomaticIds.AutomaticIdsAreNew`,
  `AutomaticIds.RepeatsAfter`, `AutomaticIds.CarefulRuns`,
  `AutomaticIds.DeletionRepeats`).
- CloseSession looks for the session's Subscriptions under id 0 and deletes none
  of them; as many sessions as there are slots, one after the other, use up all
  of them for good (`Closings.CloseKeepsSubscriptions`, `Closings.Exhaust`).

## Model

| member | source | states |
|---|---|---|
| Wire.LEInverse | src/encoding/binary_le.h:31-44 | reading the little-endian bytes of any number that fits gives the number back |
| Wire.FromLEInverse | src/encoding/binary_le.h:8-29 | writing the number read from any bytes gives those bytes back |
| Codec.StringRoundTrip | src/encoding/binary_string.c:23-72 | null, empty and non-empty strings decode to themselves and consume exactly their bytes, whatever follows |
| Codec.NodeIdRoundTrip | src/encoding/binary_nodeid.c:4-115 | every numeric or string NodeId survives its shortest form, whatever follows |
| Codec.QualifiedNameRoundTrip | src/encoding/binary_nodeid.c:155-169 | namespace and name come back, whatever follows |
| Codec.ScalarRoundTrip | src/encoding/binary_variant.c:86-152 | every encodable scalar decodes to itself under its own type id |
| Codec.VariantRoundTrip | src/encoding/binary_variant.c:4-218 | every encodable non-array Variant decodes to itself and consumes exactly its bytes, whatever follows |
| Codec.ArraysAreNotRead | src/encoding/binary_variant.c:4-81 | an array Variant, though writable, is always refused by the reader |
| Codec.DataValueRoundTrip | src/encoding/binary_datavalue.c:4-99 | value, status and both timestamps come back for every combination of present fields, whatever follows |
| Vectors.StringBytesAre | src/encoding/binary_string.c:48-72 | a string is -1, or its length in four bytes and its characters; up to 4096 characters can be written |
| Vectors.NodeIdBytesAre | src/encoding/binary_nodeid.c:69-115 | byte by byte, the two-byte, four-byte, numeric or string form, by the size of namespace and number |
| Vectors.VariantBytesAre | src/encoding/binary_variant.c:86-218 | every scalar is the type number of its kind and its value in little-endian bytes, signed numbers in two's complement |
| Vectors.EncodableExactly | src/encoding/binary_variant.c:86-152 | a scalar can be written exactly if its type is known, its strings have at most 4096 bytes and its NodeId is numeric or string |
| Vectors.ArrayBytesAre | src/encoding/binary_variant.c:154-218 | an array is the type number with bit 7, its length and its elements, for exactly the types up to 21 other than 14, 16 and 18 |
| Vectors.DataValueBytesAre | src/encoding/binary_datavalue.c:56-99 | mask bits 1, 2, 4 and 8 and the fields they announce, in that order |
| Steps.LayStatus | src/encoding/binary_writer.c:30-42 | the status of any write: no room for what precedes the first refusal, else that refusal's reason, else good |
| Steps.LayWritten | src/encoding/binary_writer.c:30-92 | a write that succeeds has appended the bytes of all its steps; none ever takes bytes back or exceeds the buffer |
| Steps.LayResidue | src/encoding/binary_string.c:48-72 | what a write leaves behind when its result is ignored: the bytes before the failure, or a sticky error exactly if a primitive did not fit |
| Steps.VariantSpelt | src/encoding/binary_variant.c:86-218 | the steps of a Variant add up to its encoding, and one is refused exactly if it has none |
| Steps.DataValueSpelt | src/encoding/binary_datavalue.c:56-99 | the same for DataValues with any fields present |
| Cursors.BinaryWriter.constructor | src/encoding/binary_writer.c:6-13 | a writer with nothing written and good status over the buffer |
| Cursors.BinaryWriter.EnsureSpace | src/encoding/binary_writer.c:30-42 | good exactly if the status is good and the bytes fit; a failure sticks |
| Cursors.BinaryWriter.WriteU32 | src/encoding/binary_writer.c:85-92 | lays down the four bytes: appended if they fit a good writer, otherwise a failure that sticks |
| Cursors.BinaryWriter.WriteU64 | src/encoding/binary_writer.c:98-105 | lays down the eight bytes in the same way |
| Cursors.BinaryWriter.WriteString | src/encoding/binary_string.c:48-72 | status, bytes and sticky status after every outcome: length then characters; characters that do not fit fail without sticking, an over-long string is refused untouched |
| Cursors.BinaryWriter.WriteNodeId | src/encoding/binary_nodeid.c:69-115 | exactly the steps of the shortest form; GUIDs and opaque ids are refused untouched |
| Cursors.BinaryWriter.WriteQualifiedName | src/encoding/binary_nodeid.c:162-169 | exactly the steps of namespace and name |
| Cursors.BinaryWriter.WriteVariant | src/encoding/binary_variant.c:183-218 | exactly the steps of the value, scalar or array element by element, up to the first that fails, and what that leaves |
| Cursors.BinaryWriter.WriteDataValue | src/encoding/binary_datavalue.c:56-99 | exactly the steps of mask and present fields |
| Cursors.BinaryReader.EnsureBytes | src/encoding/binary_reader.c:32-45 | good exactly if the status is good and the bytes are there; a failure sticks |
| Cursors.BinaryReader.ReadU32 | src/encoding/binary_reader.c:114-121 | what the decoder makes of the bytes ahead, advancing by what it used; a failed reader stays where it is |
| Cursors.BinaryReader.ReadString | src/encoding/binary_string.c:23-46 | what the decoder makes of the bytes ahead, null, limit and truncation errors included |
| Cursors.BinaryReader.ReadNodeId | src/encoding/binary_nodeid.c:4-67 | what the decoder makes of the bytes ahead, every form and every refusal |
| Cursors.BinaryReader.ReadVariant | src/encoding/binary_variant.c:4-81 | what the decoder makes of the bytes ahead, every type and every refusal |
| Cursors.BinaryReader.ReadDataValue | src/encoding/binary_datavalue.c:4-54 | what the decoder makes of the bytes ahead, with picoseconds read and dropped |
| Uadp.MessageRoundTrip | src/encoding/uadp_encoder.c:83-257 | publisher id, writer id and the whole field list come back from the encoding of any message of scalars |
| Uadp.EnvelopeRoundTrip | src/encoding/uadp_encoder.c:149-214 | the header fields and the sized body are recovered for any body, so decoding turns on the body alone |
| Uadp.Encode | src/encoding/uadp_encoder.c:83-142 | status, length and bytes for every message and every buffer, unchecked writes and what they leave behind included |
| Uadp.CompleteIsEncoded | src/encoding/uadp_encoder.c:83-142 | a message whose fields have encodings and fit is encoded as the format says |
| Uadp.ReadBackExactlyIfComplete | src/encoding/uadp_encoder.c:83-257 | what the encoder reports as encoded is read back as the message exactly if it was complete |
| Uadp.SilentLoss | src/encoding/uadp_encoder.c:110-142 | a success is incomplete exactly if some field had no encoding or more bytes than room where it starts |
| Uadp.AnotherMessageIsAccepted | src/encoding/uadp_encoder.c:83-257 | an over-long string followed by four Nulls: reported as encoded, and decoded as a message with one empty string |
| Uadp.Decode | src/encoding/uadp_encoder.c:149-257 | the reader's result, field array and errors are the decoder function's for every input |
| Uadp.OverrunIsRefused | src/encoding/uadp_encoder.c:83-142 | characters that do not fit leave a length without them, reported as success, and the decoder refuses that |
| Vectors.NetworkMessageBytesAre | src/encoding/uadp_encoder.c:83-142 | the NetworkMessage byte by byte: flags, publisher, one writer, size, and its fields as Variants |
| Vectors.NetworkMessageRefusals | src/encoding/uadp_encoder.c:83-142 | refused outright: more than eight fields, then an array among them, then a buffer below 12 bytes |
| Vectors.UnreadableMessages | src/encoding/uadp_encoder.c:149-214 | what the decoder refuses before any field, and with which status |
| Durations.TruncatedMonotone | src/core/service_dispatch.c:1817-1835 | truncation of the IEEE-754 value grows with the bit pattern |
| Durations.PublishingConversionExact | src/core/service_dispatch.c:1817-1835 | for every 64-bit pattern the integer conversion is the truncated value clamped to 50..60000 ms |
| Durations.SessionConversionExact | src/services/session.c:15-37 | for every 64-bit pattern the clamped bits convert to the truncated value clamped to 10000..3600000 ms |
| Durations.ClampedMonotone | src/services/session.c:15-37 | larger non-negative patterns never convert to smaller durations |
| Durations.MsToBits | src/core/service_dispatch.c:1836-1847 | the pattern returned denotes exactly the given positive number of milliseconds |
| Durations.IntervalRoundTrip | src/core/service_dispatch.c:1817-1847 | reading back the pattern of an interval in the clamped range gives the interval |
| Timers.NextTickIsLeast | src/services/subscription.c:1088-1103 | the next tick is the least point of the grid after now |
| Timers.SampleTimerExact | src/services/subscription.c:317-346 | the division computes the saturated next tick exactly if the 64-bit step count does not wrap |
| Timers.SampleTimerStalls | src/services/subscription.c:329-345 | when it wraps, the timer does not move at all |
| Timers.AdvancePublishTimer | src/services/subscription.c:1088-1103 | the addition loop ends, at the saturated next tick, or one interval on if the timer was ahead |
| Ledgers.EnqueueExact | src/services/subscription.c:186-211 | one more report keeps the account exact: in order, nothing lost but to overflow, overflow bits exactly at the gaps |
| Ledgers.DeliverExact | src/services/subscription.c:635-652 | delivering from the front keeps the account exact |
| Ledgers.EnqueuePushes | src/services/subscription.c:186-211 | what the account says of the queue is what one push does to it, for both discard settings |
| Ledgers.RunExact | src/services/subscription.c:186-211 | over every run of reports and publishes, delivered plus queued entries are the reported ones in order, less those overflow discarded |
| Ledgers.RunAccounts | src/services/subscription.c:186-211 | over every run the reported entries are recorded in order and the discarded ones are as many as the overflows |
| Ledgers.GapMeansDiscarded | src/services/subscription.c:181-211 | a kept entry follows a gap exactly if the report before it in the stream was discarded |
| Ledgers.OverflowBitMeansDiscarded | src/services/subscription.c:181-211 | over every run, an entry carries the overflow bits exactly if the report immediately before it was discarded, given samples without those bits |
| Ledgers.MarkSetsTwoBits | src/services/subscription.c:181-184 | the overflow mark sets bits 7 and 10 of a status and changes no other |
| Ledgers.OverflowDiscards | src/services/subscription.c:186-211 | the queue after a report: longer by it if there was room; otherwise without its first and the next one marked, or with its last replaced by the report, marked |
| ItemStates.HeldBackIsCovered | src/services/subscription.c:111-132 | a change the deadband holds back is within the deadband of the last report exactly if no NaN decided the comparison |
| ItemStates.NaNIsHeldBack | src/services/subscription.c:111-132 | a quiet NaN is held back after any number by any deadband |
| ItemStates.SampledCovers | src/services/subscription.c:1611-1657 | after a sample the newest report has its status and, under an absolute deadband, stands for its value, so drift never adds up |
| Samplings.ReportedExactly | src/services/subscription.c:1611-1657 | a sample is enqueued, after a value that waits, exactly if there was none before, the status differs, or the trigger covers values and the value is not the same Boolean, number or DateTime and, under an absolute deadband, not within it of the last reported number |
| Samplings.UnchangedIsNotReported | src/services/subscription.c:305-315 | the same Boolean, number or DateTime with the same status again is never enqueued |
| Samplings.IntegersByDeadband | src/services/subscription.c:111-132 | integers of any two widths are reported exactly if they differ by at least the deadband |
| Samplings.FloatIsItsDouble | src/services/subscription.c:100-105 | a normal float is worth what the double it widens to is worth |
| Samplings.IntegerDouble | src/services/subscription.c:103-105 | the pattern of an integer as a double is worth that integer |
| Samplings.SampledOnTime | src/services/subscription.c:1575-1659 | without an aggregate an item is sampled by a tick exactly if it is live, not disabled and due; otherwise it does not change |
| Samplings.AggregatedOnTime | src/services/subscription.c:260-292 | with an aggregate a live item that is not disabled reports it whenever there is one, and nothing else |
| Samplings.DueAgain | src/services/subscription.c:317-346 | after a sample the next is due within one interval from now, a whole number of intervals after the last, or at the end of time, unless the step count wraps |
| Items.MonitoredItem.constructor | src/services/subscription.h:113-169 | a blank slot with an empty exact account |
| Items.MonitoredItem.EffectiveQueueSize | src/services/subscription.c:143-164 | size clamped to 1..depth, stray indices brought inside it |
| Items.MonitoredItem.RecordReported | src/services/subscription.c:134-141 | the last reported number follows numeric reports only |
| Items.MonitoredItem.PushEntry | src/services/subscription.c:186-211 | the ring afterwards is well formed and holds the old queue with the entry pushed, for every size and both discard settings |
| Items.MonitoredItem.EnqueueReport | src/services/subscription.c:186-211 | the account grows by exactly this report and the ring still holds its queue |
| Items.MonitoredItem.PreparePending | src/services/subscription.c:213-219 | a pending first value is enqueued once, and nothing waits afterwards |
| Items.MonitoredItem.DropOldest | src/services/subscription.c:635-642 | as many entries leave the front as the allowance covers |
| Items.MonitoredItem.Drain | src/services/subscription.c:635-652 | the entries that leave are delivered in the account, and the allowance shrinks by their number |
| Items.MonitoredItem.SampleValue | src/services/subscription.c:1628-1655 | the account gains the waiting first value, then the sample exactly if it is reportworthy, which Samplings.ReportedExactly spells out |
| Items.MonitoredItem.Sample | src/services/subscription.c:1611-1657 | the item becomes exactly what the sampling function makes of it: with an aggregate only the last value moves, without one the sample is noted as Samplings.ReportedExactly says; the timer moves as Samplings.DueAgain says |
| Items.MonitoredItem.Resend | src/services/subscription.c:601-630 | one more report: the value read, or the last one with the read's status |
| Items.MonitoredItem.PublishAggregate | src/services/subscription.c:260-292 | the item becomes what one more report, the aggregate, makes of it |
| Items.MonitoredItem.AddLink | src/services/subscription.c:1490-1502 | the link is there afterwards unless the list was full without it; no link is stored twice |
| Items.MonitoredItem.RemoveLink | src/services/subscription.c:1516-1530 | the first occurrence of the link goes and the others keep their order |
| Items.MonitoredItem.Configure | src/core/service_dispatch.c:2614-2655 | the item starts with an empty account, the size asked for within 1..depth, the value first read, and a report pending exactly if that read was good |
| Items.MonitoredItem.Modify | src/core/service_dispatch.c:2801-2813 | interval and client handle change, nothing else of the item |
| Items.MonitoredItem.SetMode | src/core/service_dispatch.c:2370-2380 | the mode changes, nothing else of the item |
| Selection.TakenIsAllowance | src/services/subscription.c:654-677 | the first k selected notices take from each item exactly the front of its queue, as far as what earlier items left of k |
| Selection.SelectedExactly | src/services/subscription.c:500-578 | all entries of an item are selected if it reports, or if it samples and some reporting item of the Subscription with something to report links to it; otherwise none |
| Selection.SelectedInOrder | src/services/subscription.c:716-812 | reporting items before triggered ones, each in slot order, each queue from its front |
| Notifications.NoticesRoundTrip | src/services/subscription.c:728-758 | the client reads back handle and DataValue of every notice, in order, and stops where they end |
| Publishing.ReportsByTrigger | src/services/subscription.c:515-538 | true exactly for a sampling item with entries that some reporting item of the subscription links to |
| Publishing.CountQueueEntries | src/services/subscription.c:540-549 | the running count capped, and whether the queue was counted to its end |
| Publishing.CountReportable | src/services/subscription.c:553-578 | the number of selected notices under the cap, with more notifications flagged exactly if some are left over |
| Publishing.WriteNotice | src/services/subscription.c:741-755 | exactly the steps of handle and DataValue of one entry |
| Publishing.WriteQueue | src/services/subscription.c:728-758 | exactly the steps of the front of the item's ring, in order, as far as the count lasts |
| Publishing.WriteNotices | src/services/subscription.c:716-812 | exactly the steps of the first notices of the selection, reporting items before triggered ones, up to the first that fails |
| Publishing.WriteDataChange | src/services/subscription.c:696-824 | type id, body length, entry count and exactly that many selected notices; the true body length is patched over its placeholder exactly if all was written, and every failure leaves what its steps leave |
| PoolStates.DrainedDelivers | src/services/subscription.c:654-677 | what an item's account gains as delivered is exactly what the message said of it, and the rest stays queued |
| Draining.DrainChosen | src/services/subscription.c:663-676 | chosen items give the front of their queues as far as the allowance lasts, in slot order; no other item changes |
| Draining.ClearReported | src/services/subscription.c:654-677 | every item becomes what draining the first notices of the selection makes of it |
| Responses.BuildResponse | src/services/subscription.c:942-1038 | the status of every build, and on success the whole answer in the buffer with the marked range the NotificationMessage |
| Responses.BuildsExactlyIf | src/services/subscription.c:942-1038 | building succeeds exactly if the entries can be sent and the whole answer fits |
| Responses.RefusedStatus | src/services/subscription.c:942-1038 | with an entry that cannot be encoded the status is the limit error exactly if that entry is reached within the buffer and holds an over-long string, and the encoding error otherwise |
| Responses.WriteResponseHeader | src/services/service_header.c:33-64 | exactly the steps of the response header |
| Messages.NotificationRoundTrip | src/services/subscription.c:976-1010 | the client reads the sequence number, the time and every selected entry from the message, whatever follows |
| Cycles.PrepareQueues | src/services/subscription.c:592-599 | all items become what waking those of the subscription that are on makes of them |
| Cycles.ResendData | src/services/subscription.c:601-633 | all items become what one more report of each reporting item makes of them: the read's value if it was good, otherwise the last value with the read's status |
| Cycles.Dequeue | src/services/subscription.c:449-478 | the session's request that came first leaves the queue, lowest slot among equals, or none if it has none |
| Cycles.Enlist | src/services/subscription.c:1244-1272 | the request takes the first free slot, or is refused if there is none; no other slot changes |
| SubStates.NextNumber | src/services/subscription.c:1047-1052 | the number of the next data message is one more, with 1 after the last 32-bit number |
| Cycles.ReviseCounts | src/services/subscription.c:427-447 | a keep-alive count between 1 and a third of the range, a lifetime of at least three of them, and what was asked for wherever that allows it |
| Cycles.Subscription.Start | src/services/subscription.c:1301-1318 | the parameters asked for, with counts revised only where they must be, nothing sent or retained, and 1 as the first number |
| Cycles.Subscription.Modify | src/services/subscription.c:1321-1339 | new parameters, the revised counts kept in proportion, the message history untouched |
| Cycles.Subscription.Acknowledge | src/services/subscription.c:1364-1370 | good exactly for the retained number, which is then no longer retained |
| Cycles.Subscription.Republish | src/services/subscription.c:1388-1394 | what is returned is byte for byte the last data message sent, under its number; otherwise not available |
| Cycles.Attempt | src/services/subscription.c:1163-1169 | the status and bytes of building and emitting, for every batch and every outcome of emission |
| Cycles.Subscription.Conclude | src/services/subscription.c:1047-1068 | a delivered message joins the history under the current number, is retained exactly if it has at most 256 bytes (Retentions.SentCanBeRepublished), the number goes on past 0, and the keep-alive count starts over |
| Cycles.Respond | src/services/subscription.c:1163-1178 | answered, faulted or dropped: exactly the outcome the reply function gives, with the bytes that went out |
| Cycles.PublishData | src/services/subscription.c:1154-1203 | if the answer went out the items are drained of exactly what it carried and the message is numbered, recorded and retained; otherwise no item and no Subscription field changed; the request taken is gone either way; Answers.CycleTellsTheClient says what the answer reads as |
| Cycles.KeepAlive | src/services/subscription.c:1204-1227 | the counter goes up, the session's first waiting request is taken exactly when it reaches its limit, and the message shows the number the next data message will have and consumes none; Answers.CycleTellsTheClient says what the answer reads as |
| Cycles.PublishOne | src/services/subscription.c:1142-1227 | items, Subscription, waiting requests and outcome become exactly what the cycle function makes of them, of which Answers.CycleTellsTheClient, Retentions.SentCanBeRepublished and Progress.KeepAliveOnTime say what it is |
| CycleStates.FirstForIsFirst | src/services/subscription.c:449-478 | the request taken is the one of its session that came first, lowest slot among equals |
| CycleStates.AnsweredExactly | src/services/subscription.c:1163-1178 | a request is answered exactly if the entries can be sent, the answer fits and it goes out |
| CycleStates.SendableIsDroppedOrFaulted | src/services/subscription.c:1163-1178 | if the entries can be sent: answered exactly if it fits and goes out, faulted exactly if it does not fit or emission reports one of the three size statuses, and the fault goes out |
| CycleStates.UnsendableIsDroppedOrFaulted | src/services/subscription.c:1070-1178 | if not: dropped without an answer exactly if the first such entry is reached within the buffer and holds an over-long string, faulted otherwise |
| CycleStates.OverlongIsDropped | src/services/subscription.c:1070-1178 | one string of more than 4096 bytes drops the request, whatever emission returns |
| Answers.AnswerIsRead | src/services/subscription.c:942-1038 | a client's decoder gets handle, Subscription, flag, number, time, every entry and every acknowledgement code from the bytes of any answer without arrays |
| Answers.CycleTellsTheClient | src/services/subscription.c:1142-1227 | what a cycle sends answers a waiting request of the session and reads as: its handle, the Subscription, the current number, the first entries due up to the cap and the codes, with more notifications flagged exactly if it carries entries and fewer than are due; a keep-alive reads as false and the next number |
| Answers.FaultTellsTheClient | src/services/subscription.c:1075-1086 | the fault reads as Bad_ResponseTooLarge under the request's handle |
| Answers.MeantAre | src/services/subscription.c:728-758 | entry by entry, the client handle, the value, and the status unless it is good |
| Progress.UnbuildableIsNeverAnswered | src/services/subscription.c:1163-1178 | a batch that fits no answer without acknowledgements is never answered; any other is, without acknowledgements and if it goes out |
| Progress.StuckForever | src/services/subscription.c:1142-1203 | over every run of cycles from such a batch on, with any requests and emissions: nothing is delivered, each cycle takes a request, and the items stay as first prepared |
| Progress.DrainedCounts | src/services/subscription.c:654-677 | draining k of the selected entries leaves the items with exactly k fewer |
| Progress.BuildableMovesOn | src/services/subscription.c:1142-1203 | any other batch, the cap's worth of what is due, leaves the items with the first answer that goes out and is its message |
| Progress.KeepAliveOnTime | src/services/subscription.c:1204-1227 | over any number of cycles with nothing due and a request waiting at each, exactly every maxKeepAlive-th is answered |
| Registry.AllSeen | src/services/subscription.c:1580-1586 | once as many live slots were seen as the counter says, the remaining slots hold none |
| Registry.NeverExhausted | src/services/subscription.c:358-406 | with one more candidate than slots, some candidate id is free: the allocator cannot come back empty |
| Registry.AllocateId | src/services/subscription.c:358-406 | the first free id counting up from the counter, skipping 0 on wrap-around: every candidate before it is live; and the counter one past it |
| Registry.FreshIsFirst | src/services/subscription.c:358-406 | the id given is free and no earlier candidate is |
| Registry.LookupActive | src/core/service_dispatch.c:2290-2305 | the scan that stops after the counted live slots finds an entry exactly if the full table has it |
| Registry.ItemAdded | src/services/subscription.c:1422-1455 | a fresh id in a free slot for a live Subscription keeps counter, unique nonzero ids and ownership |
| Engines.Engine.AdmitItem | src/services/subscription.c:1422-1455 | the first free slot under the first fresh id, configured as asked, counter one up, or refused; exactly as the admitting function says, nothing else changed |
| Engines.Engine.CreateItem | src/core/service_dispatch.c:2529-2612 | the machine becomes exactly what the step function makes of it: refused for want of the session's Subscription or of a slot, otherwise one item more and no other slot changed |
| Engines.Engine.DeleteItem | src/services/subscription.c:1457-1475 | exactly the item named is freed and counted off, or the status says what is missing |
| Engines.Engine.FindItem | src/core/service_dispatch.c:2290-2305 | stopping after the active count misses no live item |
| Engines.Engine.CreateSubscription | src/services/subscription.c:1274-1319 | exactly the step: the first free slot under the first fresh id with the parameters asked for, or refused |
| Engines.Engine.DeleteSubscription | src/services/subscription.c:1397-1420 | exactly the step: the Subscription and its items go, each counted off |
| Engines.Engine.ChangeSubscription | src/core/service_dispatch.c:2358-2476 | ModifySubscription, SetPublishingMode and ResendData: exactly that one Subscription changes, in exactly that respect |
| Engines.Engine.CloseSubscriptions | src/core/service_dispatch.c:1264-1273 | the loop of CloseSession deletes every Subscription of the id given and its items, and nothing else |
| Engines.Engine.ModifyItem | src/core/service_dispatch.c:2801-2813 | ModifyMonitoredItems, one item: exactly the step, refusals in the source's order |
| Engines.Engine.SetMode | src/core/service_dispatch.c:2370-2380 | SetMonitoringMode, one item: exactly the step |
| Engines.Engine.AddTriggerLink | src/services/subscription.c:1478-1503 | exactly the step: both items there, no link twice, refused when full |
| Engines.Engine.RemoveTriggerLink | src/services/subscription.c:1505-1531 | exactly the step |
| Engines.Engine.Publish | src/core/service_dispatch.c:3010-3047 | the acknowledgements in order, each with its code, then the request parked with the codes, or refused |
| Engines.Engine.Republish | src/services/subscription.c:1373-1395 | the retained message of that number, or why not; nothing changes; by Retentions.SentCanBeRepublished that is the last message sent, exactly if it has at most 256 bytes |
| Engines.SampleLive | src/services/subscription.c:1575-1659 | all items become what the tick makes of them, though the scan stops after the counted live ones |
| Engines.Engine.PublishDue | src/services/subscription.c:1105-1234 | slot by slot, every due Subscription gets its cycle on what the ones before it left, and its timer moves to the next tick; all others stay |
| Engines.Engine.RunTick | src/services/subscription.c:1575-1661 | exactly the tick of the machine: sampling, then every due cycle, with their outcomes |
| Engines.Engine.Step | src/services/subscription.c:1236-1661 | each of the fifteen operations does to the objects exactly what its function does to the machine, reply included |
| Engines.Engine.Run | src/services/subscription.c:1236-1661 | after every run of operations the objects are exactly what the machine's run is, and valid |
| Observations.AfterCreateSubscription | src/services/subscription.c:1274-1319 | the first free slot holds it under a new nonzero id with the parameters asked for, counts revised, due one interval from now, with nothing sent |
| Observations.NoRoomForSubscription | src/services/subscription.c:1274-1300 | with every slot in use it is refused and nothing changes |
| Observations.AfterModifySubscription | src/core/service_dispatch.c:2445-2476 | the parameters are the new ones, revised; number, messages and timer stay |
| Observations.AfterSetPublishingMode | src/core/service_dispatch.c:2358-2368 | publishing is on exactly if asked for, and nothing else changed |
| Observations.AfterDeleteSubscription | src/services/subscription.c:1397-1420 | the Subscription and exactly its items are gone, every other slot as it was |
| Observations.StrangersAreRefused | src/services/subscription.c:1341-1355 | a call that names a Subscription its session does not have is refused for that and changes nothing |
| Observations.AfterCreateItem | src/core/service_dispatch.c:2614-2655 | the first free slot holds the item under a new nonzero id with the filter, mode and size asked for, size within 1..depth, an empty queue, and the first value pending exactly if its read was good |
| Observations.AfterModifyItem | src/core/service_dispatch.c:2801-2813 | interval and client handle are the new ones and nothing else changed; with a bad filter nothing changes |
| Observations.AfterSetMonitoringMode | src/core/service_dispatch.c:2370-2380 | the mode is the low byte asked for, and nothing else changed |
| Observations.AfterAddLink | src/services/subscription.c:1478-1503 | the link is there afterwards unless four others are, never twice, and nothing else changed |
| Observations.AfterRemoveLink | src/services/subscription.c:1505-1531 | the first such link is gone, the others in order, and nothing else changed |
| Observations.AfterDeleteItem | src/services/subscription.c:1457-1475 | the item is gone and counted off, every other slot as it was |
| Observations.StrangeItemsAreRefused | src/core/service_dispatch.c:2290-2305 | a call that names an item the Subscription does not have is refused for that and changes nothing |
| Observations.AfterPublish | src/core/service_dispatch.c:3010-3047 | more than four acknowledgements are refused at once; otherwise they are carried out and the request is parked with its codes in the first free slot, or refused exactly if every slot waits |
| Observations.PreparedExactly | src/services/subscription.c:592-633 | a cycle enqueues what waits and, once after ResendData, what is read of each reporting item; nothing while publishing is off |
| Observations.ServedOnTime | src/services/subscription.c:1088-1234 | a Subscription gets its cycle exactly if it is live and due, and is due again within one interval from now |
| Runs.NextValid | src/services/subscription.c:1236-1661 | every step keeps: exact item accounts, numbered messages, unique nonzero ids, counter equal to live items, live owners, and every delivery told by a message |
| Runs.NextReports | src/services/subscription.c:1575-1661 | what a step adds to an item's account is exactly the reports it makes to it: aggregate, sample, woken value, resent value |
| Runs.EnqueuedIsReported | src/services/subscription.c:1236-1661 | in every state of every run an item's account holds exactly the reports made to it since it was created, in order |
| Runs.DeliveredIsTold | src/services/subscription.c:1105-1234 | in every state of every run, what was delivered to an item is the concatenation of what its Subscription's data messages since its creation say of it; with its queue it is what was reported less what overflow discarded |
| Runs.MessagesAreNumbered | src/services/subscription.c:1040-1068 | in every state of every run the k-th data message has the k-th number and the bytes of what it says |
| Runs.RepublishedIsLatest | src/services/subscription.c:1373-1395 | what Republish returns is the last data message of that session's Subscription under its number |
| Runs.RetainedAlongRuns | src/services/subscription.c:1047-1068 | over every run that neither deletes the Subscription nor sends for it nor acknowledges its message, the message stays retained unchanged |
| Retentions.SentCanBeRepublished | src/services/subscription.c:1040-1068 | a tick that sends for a Subscription sends one message, and Republish then gives its bytes if they are at most 256, and Bad_MessageNotAvailable otherwise |
| Retentions.RepublishedUntilDisturbed | src/services/subscription.c:1373-1395 | over every run that neither sends for the Subscription, nor acknowledges its message, nor deletes it, Republish keeps giving the same |
| Retentions.AckCodes | src/services/subscription.c:1357-1371 | an acknowledgement gets 0 exactly if it names the retained message, which then goes; otherwise the code for the missing number or the missing Subscription, and nothing changes |
| Retentions.AcknowledgedIsGone | src/core/service_dispatch.c:3010-3047 | after the owner's PublishRequest acknowledges a message the code parked is 0 and Republish no longer has it |
| Frames.OtherSubs | src/services/subscription.c:1236-1661 | a step leaves every Subscription it is not about as it was |
| Frames.OtherItems | src/services/subscription.c:1236-1661 | a step leaves every item it is not about as it was |
| Frames.SessionsAreApart | src/services/subscription.c:1341-1355 | over every run of other sessions' requests, a Subscription and its items stay exactly as they are |
| Framing.FrameConcat | src/core/server.c:795-820 | framing what is left together with what comes next is framing the whole stream at once |
| Framing.FramePartition | src/core/server.c:795-820 | messages and rest make up the stream, each message as long as it says, from 8 bytes to the buffer size |
| Framing.RestIsFramed | src/core/server.c:795-811 | what is left holds no complete message; the stream is bad exactly if what is left has 8 bytes and says a size below 8 or above the buffer |
| Framing.FrameComplete | src/core/server.c:795-820 | any stream of messages, each from 8 bytes to the buffer size and as long as it says, is framed as exactly those, whatever follows |
| Framing.Receiver.HandleComplete | src/core/server.c:794-820 | the messages handled are the framing of the buffered bytes up to the first that closes, though handling rewrites the buffer; by Framing.FrameComplete those are all the complete messages there |
| Framing.Receiver.Poll | src/core/server.c:775-828 | however reads cut the stream, what was handled is the framing of the whole stream up to a bad size or a close; the connection lives exactly if bytes were read, no size was bad and nothing handled closes, and then has room to read |
| Framing.Receiver.Compact | src/core/server.c:822-828 | the unconsumed bytes, in order, at the front |
| Sequence.SequenceValidator.Validate | src/core/sequence.c:11-42 | accepted exactly if it is the first, the number after the last one through 0, or one below 1024 after one above 4294966271 |
| Sequence.NoEarlyRepeat | src/core/sequence.c:11-42 | in every run the same number is accepted twice only 4294965250 acceptances or more apart |
| Sequence.FollowsExactly | src/core/sequence.c:11-42 | which numbers go on from a last one, in plain numbers |
| Sequence.RepeatAtTheBound | src/core/sequence.c:35-39 | and that bound is reached |
| Sequence.Outbound.EmitPlain | src/core/server.c:251-267 | numbers that go out are consecutive, wrap-around included, and every validator accepts them; an oversize body takes none |
| Sequence.Outbound.RespondPlain | src/core/server.c:386-400 | the same for responses |
| Sequence.Outbound.EmitSecured | src/core/server.c:516-530 | the number is taken whether or not the wrap succeeds |
| Sequence.GapRefused | src/core/server.c:516-530 | after failed wraps the next chunk is accepted exactly if they carried the counter around its end into the first 1024 |
| Sequence.OneFailureBreaksTheChain | src/core/server.c:516-530 | one failure after the first message is refused |
| NodeIndex.CompareIsOrder | src/address_space/node_id.c:8-48 | antisymmetric; 0 exactly for the same numeric or string NodeId, and for any two GUIDs or any two opaque ids of one namespace |
| NodeIndex.CompareTransitive | src/address_space/node_id.c:8-48 | transitive, strings ordered by length and then bytes included |
| NodeIndex.CompareIsLess | src/address_space/node_id.c:8-48 | smaller by namespace, then kind, then number, or length and the first byte that differs |
| NodeIndex.ScanFinds | src/address_space/node_id.c:84-95 | the scan finds a numeric or string id exactly if the table has it, where it first is, and no other kind |
| NodeIndex.InsertOne | src/address_space/node_id.c:62-80 | one round extends a sorted permutation of the first i positions to one of i + 1 |
| NodeIndex.FindLinear | src/address_space/node_id.c:84-95 | the first node equal to the key, or none |
| NodeIndex.FindIndexed | src/address_space/node_id.c:97-119 | a node the order does not tell from the key, or none if there is none |
| NodeIndex.FindDirect | src/address_space/node_id.c:164-184 | the same on a table that is in order itself |
| NodeIndex.LocatedIsScanned | src/address_space/node_id.c:84-119 | on a duplicate-free space either search finds, for numeric and string keys, exactly the node the scan finds |
| NodeIndex.UnsupportedKeys | src/address_space/node_id.c:121-155 | a GUID or opaque key is found by no scan, and the search agrees exactly if no node has its namespace and kind |
| NodeIndex.WrongNodeIsFound | src/address_space/node_id.c:97-155 | with the node of one GUID in the space the search for any other GUID of its namespace answers with it |
| NodeIndex.AddressSpaceIndex.Rebuild | src/address_space/node_id.c:50-82 | the index is a sorted permutation of all positions, or off if the space is too large |
| NodeIndex.AddressSpaceIndex.Find | src/address_space/node_id.c:186-208 | after any lookups in any spaces through the same index, the lookup agrees with the scan for numeric and string keys; for the others it is the search if the space is indexed and the scan if not |
| NodeIndex.Resolve | src/address_space/base_nodes.c:804-817 | the node of the key in the user's table, else in the dynamic, else in the base table, and no earlier one; for GUIDs and opaque ids, exactly when the searches answer with some node of the key's namespace and kind |
| SymChunk.RoundTrip | src/security/sym_chunk.c:94-269 | in both modes and with either cipher, every chunk that could be wrapped unwraps to the same channel, token, numbers and body, whatever follows in the buffer |
| SymChunk.WholeBlocks | src/security/sym_chunk.c:131-140 | the encrypted region is a whole number of 16-byte blocks, and the chunk as long as its MessageSize |
| SymChunk.CipherIsChosen | src/security/sym_chunk.c:160-176 | under Aes128_Sha256_RsaOaep the chunk is encrypted with the AES-128 cipher, and an internal error without one; under every other policy with the AES-256 cipher |
| SymChunk.CipherIsChosenAgain | src/security/sym_chunk.c:207-225 | the same choice for decryption |
| SymChunk.SignedLayout | src/security/sym_chunk.c:94-129 | a signed chunk field by field, ending in the MAC of all that precedes it |
| SymChunk.PlainLayout | src/security/sym_chunk.c:131-158 | what is encrypted: numbers, body, padding length and that many bytes of its value, as few as fill whole blocks |
| SymChunk.AcceptedIsSigned | src/security/sym_chunk.c:227-269 | no chunk is accepted without the MAC of all that precedes it |
| SymChunk.Wrap | src/security/sym_chunk.c:94-181 | the buffer holds the chunk the format prescribes (SymChunk.SignedLayout, SymChunk.PlainLayout), encrypted under the cipher of the policy (SymChunk.CipherIsChosen), or the status says why not: mode, room, MAC or cipher |
| SymChunk.Unwrap | src/security/sym_chunk.c:183-269 | fields and body, left in place, exactly if sizes, MAC and every padding byte are in order under the cipher of the policy (SymChunk.CipherIsChosenAgain); otherwise the status of the first check that failed |
| AsymChunk.PaddedIsWhole | src/security/asym_chunk.c:150-156 | padding brings any length to a whole number of plaintext blocks |
| AsymChunk.BlocksComeBack | src/security/asym_chunk.c:226-248 | block by block, decryption undoes encryption, for any number of blocks |
| AsymChunk.HeaderComesBack | src/security/asym_chunk.c:38-69 | type, size, channel, policy URI, certificate and thumbprint are read back from the header |
| AsymChunk.RoundTrip | src/security/asym_chunk.c:100-423 | under each secured policy, every chunk that could be wrapped for a receiver unwraps there to the same policy, sender, channel and numbers, and the body followed by the surplus of its padding |
| AsymChunk.ExactUpTo255 | src/security/asym_chunk.c:188-189 | the body itself comes back exactly if its padding is at most 255 bytes |
| AsymChunk.ExactForShortKeys | src/security/asym_chunk.c:188-189 | for a receiver's key of 2048 bits every body comes back |
| AsymChunk.LargeKeysOverflow | src/security/asym_chunk.c:188-189 | with 4096-bit keys an empty body gets 419 bytes of padding |
| AsymChunk.SecuredLayout | src/security/asym_chunk.c:100-253 | every chunk that could be wrapped, field by field: header, then the numbers, body, padding and the signature of it all, each block encrypted for the receiver |
| AsymChunk.WhenTooLarge | src/security/asym_chunk.c:150-224 | a request too large if more than 2048 bytes are to be encrypted or more than 4096 to be signed, a response too large if more would come out than the buffer holds, in that order |
| AsymChunk.AcceptedIsSignedBySender | src/security/asym_chunk.c:345-423 | nothing secured is accepted without the sender's signature, of the policy's kind, over the header and all encrypted before it |
| AsymChunk.AcceptedIsAddressed | src/security/asym_chunk.c:255-344 | and only from a validated sender that named this certificate by its thumbprint |
| AsymChunk.ValidatedExactly | src/security/certificate.c:12-52 | let in: under None any certificate, otherwise one whose key has 2048 to 4096 bits and that is valid now |
| OpnHeaders.UrisExactly | src/security/security_policy.c:5-62 | the four URIs name the four policies and no other URI names one; no URI means None |
| OpnHeaders.WriteOpnHeader | src/security/asym_chunk.c:38-69 | the header's bytes, or the status of the step that failed |
| OpnHeaders.HeaderLaid | src/security/asym_chunk.c:38-69 | the header is written exactly if certificate and thumbprint are encodable and everything fits |
| AsymChunk.EncryptInto | src/security/asym_chunk.c:226-248 | every block of the plaintext in its place, or the status of the first that fails |
| AsymChunk.DecryptInto | src/security/asym_chunk.c:345-363 | the plaintext in the scratch area, or a failure if a block fails or does not fit |
| AsymChunk.Wrap | src/security/asym_chunk.c:100-253 | under every policy the buffer holds the chunk, or the status is that of the first check, writer, signature or block that failed |
| AsymChunk.Unwrap | src/security/asym_chunk.c:255-423 | policy, sender, numbers and body exactly if every check passes, and otherwise the status of the first that failed |
| AsymChunk.PlainRoundTrip | src/security/asym_chunk.c:71-98 | without security channel, numbers and body come back, whatever follows |
| AsymChunk.ValidatedKey | src/security/certificate.c:12-52 | a validated certificate has a key of 256 to 512 bytes, so a plaintext block of 190 to 470 |
| AsymChunk.SenderCanBeAnswered | src/security/asym_chunk.c:255-423 | the sender of an accepted request was validated, so wrapping the answer for it divides by no empty block |
| AsymChunk.ShortKeyIsRefused | src/security/asym_chunk.c:133-163 | under Aes256_Sha256_RsaPss a shorter key, whose block size wraps around, is refused as too large a request |
| Identifiers.RawInjective | src/services/session.c:125-133 | different salts never give the same number, because the multiplier is invertible modulo 2^32 |
| Identifiers.NeverExhausted | src/services/session.c:109-170 | whatever the entropy, some candidate is free as long as a slot is |
| Identifiers.FirstCandidates | src/services/session.c:109-170 | the first candidate for an id is the entropy itself, for a token the entropy with 0xA5A5A5A5 xored in |
| Identifiers.Generate | src/services/session.c:109-170 | the first candidate that is nonzero and no live session's; it fails only without entropy or with every candidate taken |
| Sessions.LiveWasBorn | src/services/session.c:185-217 | a live slot was created at some point of the run, and nothing ended that life since |
| Sessions.ActivatedWasActivated | src/services/session.c:244-281 | an activated slot was created, then activated, and neither closed nor replaced since |
| Sessions.SessionTable.CreateSession | src/core/service_dispatch.c:772-794 | with nonce and entropy drawn it succeeds exactly if a slot is free, and takes the first; its id and token are the first free candidates; ids and tokens of live sessions stay nonzero and distinct |
| Sessions.SessionTable.ActivateSession | src/core/service_dispatch.c:1064-1226 | succeeds exactly for a live token, passed checks and a supported identity token, and then only that slot changes, to activated; a refused one changes nothing |
| Sessions.SessionTable.CloseSession | src/services/session.c:266-281 | the slot is reset exactly if it is live and the token is its own |
| Sessions.SessionTable.Gate | src/core/service_dispatch.c:4050-4087 | a session-requiring handler runs only on an open channel, for the one slot holding the token, created and activated with no close since |
| Closings.CloseKeepsSubscriptions | src/core/service_dispatch.c:1264-1273 | a Subscription survives the close of its session, unchanged, exactly if the session's id is not 0, which no live session's is |
| Closings.HandleClose | src/core/service_dispatch.c:1250-1273 | a successful CloseSession resets the slot and then deletes exactly the Subscriptions of id 0; a refused one changes nothing |
| Closings.Visit | src/core/service_dispatch.c:1250-1273 | a session created, activated and let through subscribes and is closed: no session is left, and one more Subscription is live, unless the pool was full |
| Closings.Exhaust | src/core/service_dispatch.c:1250-1273 | after as many such visits as there are slots the pool is full and no session is live |
| Closings.FullRefuses | src/services/subscription.c:1274-1300 | and from then on every CreateSubscription is refused and changes nothing |
| Frames.ClosedExactly | src/core/service_dispatch.c:1264-1273 | the loop deletes exactly the Subscriptions of the id it is given |
| DynamicSpace.StoredIdReads | src/services/node_management.c:14-56 | a copied NodeId lies in the given slot's storage and reads back as the source |
| DynamicSpace.SwappedLosesOne | src/services/node_management.c:566-576 | moving the last entry into the gap loses exactly the deleted entry |
| DynamicSpace.NodeIsLocal | src/services/node_management.c:58-71 | a node whose strings lie in its own slot reads the same whatever happens to other slots |
| DynamicSpace.NodeTable.Append | src/services/node_management.c:534-546 | the node joins at the end, every string in its slot's own storage |
| DynamicSpace.NodeTable.Move | src/services/node_management.c:104-144 | record first, then each buffer and pointer: slot j reads as slot k did, owns its strings, and no other slot changes |
| DynamicSpace.IdStep | src/services/node_management.c:113-122 | in the middle of a move, with the id copied and its pointer set and the names still in the other slot, the slot reads as the moved node |
| DynamicSpace.NodeTable.Remove | src/services/node_management.c:104-144 | the last node takes the gap by value, and every string lies in its own slot's storage again |
| DynamicSpace.ReferenceTable.Move | src/services/node_management.c:92-102 | each id is copied through the moved record's pointer while the slot is half rewritten; it ends up with the same reference in its own storage |
| DynamicSpace.ReferenceTable.Remove | src/services/node_management.c:92-102 | the same for references |
| DynamicSpace.ReferenceTable.RemoveAbout | src/services/node_management.c:580-595 | no reference from or to the node is left, and every other one is there as often as before |
| DynamicSpace.DynamicAddressSpace.AddNode | src/services/node_management.c:481-547 | nodes, status and id after one item: added exactly if class, capacity and every string allow it, with the requested or automatic id, after the nodes there were |
| DynamicSpace.AddedExactly | src/services/node_management.c:481-547 | added exactly if the class is not 0, there is room, the attributes decode and every text is short enough; then with the requested id, or 1000 and the count in namespace 1, and the browse name where there is no display name; which status otherwise |
| DynamicSpace.NoneAboutIsLeft | src/services/node_management.c:580-595 | after a deletion no reference has the id as source or target, and all others are there as often as before |
| DynamicSpace.DynamicAddressSpace.DeleteNode | src/services/node_management.c:564-601 | one node with the id goes and all references about it; all other nodes and references keep their values and numbers |
| DynamicSpace.DynamicAddressSpace.AddReference | src/services/node_management.c:617-636 | added exactly if there is room and all three ids fit |
| DynamicSpace.DynamicAddressSpace.DeleteReference | src/services/node_management.c:652-678 | one exact match goes, and nothing else |
| AutomaticIds.AutomaticIdsAreNew | src/services/node_management.c:522-528 | over every run of automatic adds all ids are new exactly if no live node of namespace 1 has a number from 1000 and the count up to the last one given |
| AutomaticIds.RepeatsAfter | src/services/node_management.c:522-528 | a live number k not below 1000 and the count is given a second time after exactly k - 1000 - count more automatic adds |
| AutomaticIds.CarefulRuns | src/services/node_management.c:481-601 | over every run of adds and deletions every live number stays below the next one to be given exactly if no add requests a higher one and no deletion leaves the last number to another node; then every automatic id is new |
| AutomaticIds.Perform | src/services/node_management.c:469-601 | the nodes after any run of the two services are those of the run of the functions |
| AutomaticIds.DeletionRepeats | src/services/node_management.c:522-528 | two automatic nodes, the first deleted, a third: it repeats the second's id |

## Left out

- Several connections at once, and the routing of Subscriptions to them: channel ids are not distinct in that build.
- Events, the event queue and EventFilter; aggregates enter as the value computed, their arithmetic and timing do not.
- The decoding and encoding around the service handlers, and handlers that only read.
- Lifetime expiry of Subscriptions, of which the code keeps a counter only.
- Null data pointers with a positive length, which the string type cannot express.
- Rounding of floating-point arithmetic; the deadband compares exact values, with NaN and the infinities as they are.
- RSA, AES, HMAC and key derivation are functions with the laws the round trips need; the cached cipher context counts as the cipher itself.
- Zeroing of scratch buffers, and staging areas that no result depends on.
- Idle timeouts of a connection and the refusal of a second one.
- Discovery, history, query, methods and PubSub scheduling.
- Items.MonitoredItem.PublishAggregate: takes the aggregate as a parameter, because its arithmetic is floating point over samples the queue never sees.
- AsymChunk.Wrap: asks that the receiver's key is not exactly 66 bytes long under Aes256_Sha256_RsaPss, where the source divides by zero; validation rules it out.
- NodeIndex.Resolve: asks for the base table to be in order, which is a property of static data.
- NodeIndex.AddressSpaceIndex.Find: a space that changes behind the index while keeping its size is not modelled.
- Sessions.SessionTable.ActivateSession: the signature and identity checks enter as their result.
- Progress.StuckForever: speaks of cycles with no sampling in between; a sample that overflows a queue can change the batch.
