# Ironpulse: a verified model of its core

Ironpulse polls Modbus devices, watches their readings for anomalies, stores them and exports
them. This project models the code that does so, in Dafny, and proves what its documentation and
tests promise about it. `dafny verify dfyconfig.toml` checks everything. Nothing here was executed.

How the files belong together:

- **Export pipeline.** `Crc32c` (checksum by table, by eight-byte words and by bit-serial
  division), `SegmentFormat` (samples, batches), `SegmentReader` and `SegmentFile` (reading with
  recovery), `SegmentStore` and `SegmentWriter` (rotation under a disk budget), `SpscRing` (the
  lock-free ring as interleaved steps, with every stale reload the memory model allows),
  `SpscWrap` (its refinement to wrapping 64-bit counters), `SpscRingBuffer` (the same ring as an
  object over raw slots), `Exporter` (any number of submitting threads, the consumer thread and
  stop, step by step, down to the files).
- **Acquisition.** `ReadPlanner` (greedy grouping of sensors into requests, proved optimal),
  `FrameCodec` (Modbus TCP frames: section 3.1.3 of the MODBUS Messaging on TCP/IP Implementation
  Guide V1.0b, sections 6.3, 6.4, 6.6 and 7 of the MODBUS Application Protocol V1.1b3),
  `RegisterDecode` (raw values; batched reads equal direct reads), `ModbusRuns` and `ModbusClient`
  (the event-driven client), `Acquisition` (what a read through it delivers), `PollRuns` and
  `DevicePoller` (the fixed-rate poller), `Station` (poller and client together, each on its own
  strand: from the device's registers to what is published).
- **Statistics.** `Ewma`, `Cusum`, `ZScore` over the reals, and `RuleEngine`.
- **Storage.** `RecentBuffer` (ring buffer), `WalLog` and `WalWriter` (per-sensor log),
  `SeriesRuns` and `SeriesStore` (the cache over it).
- **Shared.** `Bytes`, `Modular`, `Optional`, `Sensors`, `Sequences`, `Verdicts`.

Objects of the source are classes whose methods equate the new state with a specification function
of the old one; the lemmas over runs are about those functions. Concurrent and asynchronous parts
are transition systems whose steps are single shared-memory operations or single handlers.

Where code and documentation differ, the model follows the code:

- `docs/export-format.md` lets a reader skip eight bytes and retry after a bad header; the code
  counts the damaged region once and searches for the magic word (`SegmentReader.LostHeader`).
- `truncated_tail` is documented as "the file ends partway through a batch". It is also set when
  the magic of the last batch is destroyed, although nothing is cut off
  (`SegmentReader.LostHeader`); on a file cut short it is exact (`SegmentReader.Truncation`).
- The planner promises "as few read requests as possible". That is proved for every `max_quantity`
  and `max_gap`, in the form that no legal plan has fewer; a legal plan exists, and the blocks stay
  within the limit, exactly when no value is wider than `max_quantity`. With 1 and a 32-bit sensor
  they exceed it (`ReadPlanner.TooNarrow`).
- A record torn by a crash stays in a log file. What is appended to a file is read back exactly
  when the file ends with a whole record (`WalLog.AppendsReadBackExactlyWhen`), so cache and log
  agree after a crash exactly when the bytes of its flush that reached the file are a multiple of
  16 (`SeriesRuns.AgreesAfterCrashExactly`); results about whole runs allow every other crash.
- Every connect is documented to be bounded by a timeout. It is, in exactly the runs without a close
  or an expired deadline that comes before the handler of the resolve
  (`ModbusRuns.AlwaysCoveredExactlyUnless`, runs in `SlipsHappen`); otherwise the poller waits as
  long as the network does (`Station.StallsWithConnect`, `StallHappens`).
- `close()` holds except while a connect is resolving or its last handler is queued: then the client
  can end up connected after it (`ModbusRuns.CloseHoldsExactly`, a run in `CloseFails`).

Reading the statements: times are integers in the source's unit, bytes are integers below 256,
`real` stands for `double` in the detectors, and standard deviations are compared squared. Events
carry what the environment chooses (clock readings, I/O outcomes, reload values, whether the
connection is up), so a statement over all runs is a statement over all of these.

## Model

| member | source | states |
|---|---|---|
| `Crc32c.UpdateByte` | include/ironpulse/ingest/serializer.hpp:64-78 | Taking a whole byte into the register and then dividing for eight steps is the bit-serial division of its eight bits |
| `Crc32c.MakeTable` | include/ironpulse/ingest/serializer.hpp:66-78 | Every entry i of the table is i divided for eight steps by the reflected polynomial |
| `Crc32c.Software` | include/ironpulse/ingest/serializer.hpp:203-210 | The table-driven loop computes, for every input, the bit-serial checksum |
| `Crc32c.LoadBits` | include/ironpulse/ingest/serializer.hpp:246-252 | An eight-byte little-endian load presents the bits of its bytes in transmission order |
| `Crc32c.Sse42` | include/ironpulse/ingest/serializer.hpp:244-260 | Eight bytes at a time with a byte tail computes the same checksum as bit-serial division, for every length |
| `Crc32c.Compute` | include/ironpulse/ingest/serializer.hpp:192-200 | Whichever path the CPU allows, the result is the same checksum |
| `Crc32c.UpdateInjective` | include/ironpulse/ingest/serializer.hpp:203-210 | The update is injective in the register, whatever the message |
| `Crc32c.SerialPacked` | include/ironpulse/ingest/serializer.hpp:203-210 | Up to 32 message bits, wherever they start, act on the register as one word added to it before the division |
| `Crc32c.BurstDetected` | include/ironpulse/ingest/serializer.hpp:203-210 | Two messages of one length that differ only within 32 consecutive bits, wherever these start, have different checksums |
| `Crc32c.FourBytesAreABurst` | include/ironpulse/ingest/serializer.hpp:203-210 | In particular messages that differ only within four consecutive bytes |
| `Crc32c.CheckValue` | include/ironpulse/ingest/serializer.hpp:64-76 | The checksum of the digits 1 to 9 is the published value 0xE3069283 |
| `Bytes.DecodeEncode` | include/ironpulse/ingest/serializer.hpp:22-34 | Little-endian encoding of an unsigned integer reads back to it |
| `Bytes.EncodeDecode` | include/ironpulse/ingest/serializer.hpp:22-34 | Every byte string is the encoding of what it reads as |
| `Bytes.LittleEndianDigit` | include/ironpulse/ingest/serializer.hpp:22-34 | Byte i of a little-endian integer is its i-th digit to the base 256 |
| `SegmentFormat.PayloadRoundTrip` | include/ironpulse/ingest/serializer.hpp:28-37 | Any list of samples reads back from its bytes |
| `SegmentFormat.PayloadCanonical` | include/ironpulse/ingest/serializer.hpp:28-37 | Any whole number of 24-byte records is the encoding of the samples it reads as |
| `SegmentFormat.HeaderRoundTrip` | include/ironpulse/ingest/serializer.hpp:42-49 | Every batch header reads back from its 16 bytes |
| `SegmentFormat.SampleLayout` | include/ironpulse/ingest/serializer.hpp:28-37 | Byte for byte where time, value, tag, quality and the reserved bytes of a sample lie |
| `SegmentFormat.BatchLayout` | include/ironpulse/ingest/serializer.hpp:42-49 | A batch begins with APLC, version 2 and no flags; count, checksum of the rest and every sample lie where the format says |
| `SegmentFormat.Serialize` | include/ironpulse/ingest/serializer.hpp:94-113 | Writes exactly the batch's bytes and leaves the rest of the buffer alone; writes nothing and returns 0 when it does not fit |
| `SegmentFormat.BatchRoundTrip` | include/ironpulse/ingest/serializer.hpp:125-192 | A serialized batch decodes to its samples whatever follows it |
| `SegmentFormat.DecodeCanonical` | include/ironpulse/ingest/serializer.hpp:125-192 | An accepted buffer starts with the one encoding of its samples, but for the reserved flags |
| `SegmentFormat.CutBatchRefused` | include/ironpulse/ingest/serializer.hpp:125-140 | A batch cut short is refused as too short before the end of its header and as truncated after it |
| `SegmentFormat.ForeignBatchRefused` | include/ironpulse/ingest/serializer.hpp:131-137 | Any other magic is refused as bad magic, any other version as unsupported |
| `SegmentFormat.DamagedBatchRefused` | include/ironpulse/ingest/serializer.hpp:176-179 | Damage within 32 consecutive bits of the samples is refused as a checksum mismatch |
| `SegmentFormat.DecodeCopy` | include/ironpulse/ingest/serializer.hpp:168-186 | Appends the decoded samples exactly when the batch verifies, and otherwise reports the status and appends nothing |
| `SegmentReader.RoundTrip` | src/ingest/segment.cpp:290-346 | Scanning the encoding of any batches delivers exactly them, with nothing corrupt and no truncation |
| `SegmentReader.Truncation` | src/ingest/segment.cpp:300-329 | Cut anywhere, the scan delivers exactly the whole batches, reports no corrupt batch, and sets truncated_tail exactly when the cut is not on a batch boundary |
| `SegmentReader.PayloadDamage` | src/ingest/segment.cpp:336-345 | Damage within 32 consecutive bits of one batch's samples costs that batch only and is counted once |
| `SegmentFile.DamagedFile` | src/ingest/segment.cpp:245-348 | So a whole file with such damage reads to all its other batches, one corrupt region and no truncation |
| `SegmentReader.LostHeader` | src/ingest/segment.cpp:301-324 | A region without any magic word on an eight-byte boundary is counted once and costs nothing else; truncated_tail is then set exactly when nothing follows the region, because the search stops short of a header although nothing was cut off |
| `SegmentReader.DestroyedMagic` | src/ingest/segment.cpp:301-324 | A batch whose magic was overwritten is lost alone when no aligned word of it spells the magic; truncated_tail is then set exactly when it was the last |
| `SegmentFile.UnmarkedFile` | src/ingest/segment.cpp:245-348 | So a whole file with such a batch reads to all its other batches, with the same flag |
| `SegmentReader.DeliversOnlyVerified` | src/ingest/segment.cpp:300-346 | On arbitrary bytes the scan ends; every delivered batch stands at an aligned offset, verifies, and they do not overlap; regions reported are at most one per eight bytes |
| `SegmentFile.FindBatch` | src/ingest/segment.cpp:310-322 | The inner loop stops, eight-byte aligned, at the next magic or short of a header |
| `SegmentFile.ScanFile` | src/ingest/segment.cpp:290-346 | The reader's loop computes the scan of everything behind the tag table |
| `SegmentFile.ReadSegment` | src/ingest/segment.cpp:245-348 | The reader refuses a bad file with the matching error and otherwise returns tags, creation time and the scan |
| `SegmentFile.FileRoundTrip` | src/ingest/segment.cpp:122-181 | A file made of a prefix and batches reads back to that tag table and those batches |
| `SegmentFile.CrashedFile` | src/ingest/segment.cpp:245-346 | Any cut of a file that keeps its padded prefix reads to exactly the batches wholly inside it |
| `SegmentFile.ReadCutPrefix` | src/ingest/segment.cpp:245-289 | A file cut inside its prefix delivers nothing |
| `SegmentFile.PrefixLayout` | include/ironpulse/ingest/segment.hpp:29-41 | Byte for byte what stands before the first batch: IPSG, version 1, creation time, length and checksum of the tag table, the table, zeros up to a multiple of eight |
| `SegmentFile.HeaderRefusals` | src/ingest/segment.cpp:245-270 | A missing file, one shorter than the header, another magic, another version and a file cut inside its tag table are each refused with their own error, whatever follows |
| `SegmentFile.TableRefusals` | src/ingest/segment.cpp:271-284 | A tag table with damage within 32 consecutive bits is refused as damaged, and one the decoder does not accept as malformed |
| `SegmentStore.DropsShortestPrefix` | src/ingest/segment.cpp:223-235 | Dropping from the front until the rest fits a limit drops the shortest prefix that suffices |
| `SegmentStore.EnforceDeletesFewest` | src/ingest/segment.cpp:199-239 | The limit deletes the first k finished segments, k least such that the rest, the open segment and the reserve are within max_total_bytes (or all), and nothing when everything fits or no limit is set |
| `SegmentStore.StartDeletesFewest` | src/ingest/segment.cpp:94-116 | A writer started on earlier segments deletes as few of them as the limit demands, none when all fit |
| `SegmentStore.RotationExactly` | src/ingest/segment.cpp:160-181 | A call without an open segment, or without room in it, closes it, deletes as few as leave room for a full one, and begins a segment with the prefix and this batch under the current time and a later number; a failure seals what reached the file |
| `SegmentStore.WriteStaysInSegment` | src/ingest/segment.cpp:160-181 | A batch for which there is room, to the last byte, goes behind the open segment and deletes nothing; a failure seals that segment |
| `SegmentStore.AcceptedExactly` | src/ingest/segment.cpp:160-181 | A call succeeds exactly when it leaves a segment open that ends with the batch |
| `SegmentStore.CompletedCounted` | src/ingest/segment.cpp:183-193 | segments_completed counts every finished segment, once, over every run |
| `SegmentStore.DiskNeverExceedsLimit` | src/ingest/segment.cpp:160-239 | After construction and after every call, finished and open segments together never exceed max_total_bytes, whenever writes fail and whatever earlier runs left |
| `SegmentStore.RetainedIsSuffix` | src/ingest/segment.cpp:199-239 | With a clock that does not step back, what is left is exactly the history without its first deleted segments |
| `SegmentStore.StartOrdered` | src/ingest/segment.cpp:94-116 | A writer started on older segments starts in that order |
| `SegmentStore.RotationKeepsFinished` | src/ingest/segment.cpp:160-168 | With room for two segments, the segment a rotation finished survives that rotation |
| `SegmentStore.StepHolds` | src/ingest/segment.cpp:160-181 | Whatever file operations fail in it, a call leaves every segment of this run legible, and all of them together hold in order the batches accepted so far and those failed ones of which every byte had reached the file |
| `SegmentStore.RunHolds` | src/ingest/segment.cpp:160-197 | The same over every run of writes and closes with any pattern of failures; a failed write seals the segment and the next one starts clean |
| `SegmentStore.ReadsBackStored` | src/ingest/segment.cpp:160-197 | After close, for any pattern of failures, the segments of this run left in the directory read back in name order to what the run stored, but for exactly the contents of the leading segments deleted; nothing is missing when none was |
| `SegmentWriting.SegmentWriter.constructor` | src/ingest/segment.cpp:94-116 | Unfinished segments of a crash are finalised, then the limit is applied |
| `SegmentWriting.RecoveredKeeps` | src/ingest/segment.cpp:94-112 | Every earlier segment and every leftover partial file is in the listing afterwards |
| `SegmentWriting.SegmentWriter.EnforceTotalLimit` | src/ingest/segment.cpp:199-239 | The loop over the sorted listing leaves the state the specification function gives |
| `SegmentWriting.SegmentWriter.NextSequence` | src/ingest/segment.cpp:122-129 | The sequence number is the next one whose file name is free |
| `SegmentWriting.SegmentWriter.OpenSegment` | src/ingest/segment.cpp:122-158 | Opens the next free name with header, tag table and padding, or reports failure with no segment open |
| `SegmentWriting.SegmentWriter.WriteBatch` | src/ingest/segment.cpp:160-181 | Rotates when needed, appends, and seals the segment on a failed write; fails exactly when an operation it needed failed |
| `SegmentWriting.SegmentWriter.FinishSegment` | src/ingest/segment.cpp:183-193 | Renames the open segment, counts it and resets the byte count |
| `SegmentWriting.SegmentWriter.Close` | src/ingest/segment.cpp:195-197 | Finishes the open segment, if any |
| `SpscRing.StepInv` | include/ironpulse/ingest/ring_buffer.hpp:72-110 | Every step of either side, with any admissible stale reload, keeps head_cached <= head <= tail_cached <= tail <= head_cached + capacity, the FIFO history and the state of every slot |
| `SpscRing.AlwaysSafeAndFifo` | include/ironpulse/ingest/ring_buffer.hpp:72-118 | In every reachable interleaving no live slot is constructed on, no vacant slot is read, popped ++ queued is pushed, and size() from another thread, whichever published head it reads, does not underflow |
| `SpscRing.ExactViews` | include/ironpulse/ingest/ring_buffer.hpp:74-103 | With an up-to-date view a push fails exactly when the ring is full and a pop exactly when it is empty |
| `SpscRing.ExactSize` | include/ironpulse/ingest/ring_buffer.hpp:114-118 | With an up-to-date view size() from a third thread is the number queued |
| `SpscWrap.PowerOfTwoTest` | include/ironpulse/ingest/ring_buffer.hpp:41-47 | capacity & (capacity - 1) is zero exactly for the powers of two |
| `SpscWrap.MaskIsRemainder` | include/ironpulse/ingest/ring_buffer.hpp:133-138 | Masking with capacity - 1 is the remainder by the capacity |
| `SpscWrap.WrapSimulates` | include/ironpulse/ingest/ring_buffer.hpp:72-110 | Every step of the unbounded ring is a step of the ring with 2^64-wrapping, mask-indexed counters |
| `SpscWrap.WrapReflects` | include/ironpulse/ingest/ring_buffer.hpp:72-110 | Every step of the machine ring comes from one of the unbounded ring: wrapping never confuses full with empty |
| `SpscWrap.MachineFifo` | include/ironpulse/ingest/ring_buffer.hpp:72-110 | So over every run of the machine ring, however often its counters wrap, no live slot is constructed on, no vacant one is read or destroyed, elements leave in the order they entered, and the difference of the counters is the number queued |
| `SpscBuffer.SpscRingBuffer.Emplace` | include/ironpulse/ingest/ring_buffer.hpp:72-84 | In place, emplace does its steps of the protocol: appends the element or leaves the queue unchanged |
| `SpscBuffer.SpscRingBuffer.Pop` | include/ironpulse/ingest/ring_buffer.hpp:96-110 | In place, pop does its steps: removes and returns the oldest element, or leaves the queue unchanged |
| `SpscBuffer.SpscRingBuffer.Size` | include/ironpulse/ingest/ring_buffer.hpp:114-118 | Exact when neither side is running |
| `SpscBuffer.SpscRingBuffer.DestroyAll` | include/ironpulse/ingest/ring_buffer.hpp:49-62 | The destructor destroys exactly the elements nobody consumed, and leaves no live slot |
| `SpscBuffer.Create` | include/ironpulse/ingest/ring_buffer.hpp:41-47 | Construction succeeds exactly for powers of two from 2 on, with an empty ring |
| `Exporter.StepInv` | src/ingest/ingestor.cpp:71-164 | Every step of every thread keeps the protocol's control states, the flow of samples, batch sizes, counters and the files |
| `Exporter.Conservation` | src/ingest/reading_exporter.cpp:71-90 | For every interleaving: batches handed over ++ batch ++ queue is exactly the readings of the admitted submit calls, in lock order, each with that call's value, its time or 0 if negative, the sensor's tag and zeros; every batch has 1..batch_size samples; ingested + dropped is the calls, sent + failed the batches, unknown the calls for untagged sensors |
| `Exporter.CallAdmitsUnlessFull` | src/ingest/reading_exporter.cpp:71-90 | A submit call that nobody interrupts admits its reading exactly when the exporter accepts and the queue is not full; otherwise, when accepting, it is counted as dropped |
| `Exporter.StartOpens` | src/ingest/reading_exporter.cpp:48-55 | A start call on an exporter at rest opens it and sets its consumer going |
| `Exporter.StartIsFresh` | src/ingest/segment.cpp:94-116 | A writer constructed on older segments is one the results about whole runs may start from |
| `Exporter.StoppedMeansExported` | src/ingest/reading_exporter.cpp:57-90 | Once stop has returned nothing is left queued or batched, and reading this run's remaining segments in name order gives the batches handed over, which are the admitted submissions field by field, without those that failed before their last byte reached the file and without the contents of exactly the leading segments deleted under a size limit |
| `Exporter.NothingLeft` | src/ingest/ingestor.cpp:112-164 | With the stop call over, queue, batch and open segment are empty |
| `Exporter.DrainMakesProgress` | src/ingest/ingestor.cpp:122-153 | After the stop request every consumer step lowers a measure of queued and batched samples, but for a look at the stop flag that misses the request, which raises it by nine |
| `Exporter.DrainIsNotDisturbed` | src/ingest/reading_exporter.cpp:57-90 | No other thread's step changes that measure |
| `Exporter.DrainNeverStuck` | src/ingest/ingestor.cpp:112-164 | Until it returns the consumer always has a step to take |
| `Exporter.DrainTerminates` | src/ingest/ingestor.cpp:112-164 | After a stop request, in every run, the consumer returns or has taken fewer steps than the measure counts and ten for every time it missed the request |
| `Exporter.JoinEnds` | src/ingest/reading_exporter.cpp:57-69 | Once the consumer has returned, the join and the final close are enabled one after the other, and then stop has returned |
| `ReadPlanner.ApartNeverTogether` | src/protocol/register_decoder.cpp:32-43 | A sensor that starts a block and one the gap or span rule kept out of it fit in no legal request together |
| `ReadPlanner.EachNeedsARequest` | src/protocol/register_decoder.cpp:32-43 | Pairwise incompatible sensors need a request each in any legal plan |
| `ReadPlanner.SortByAddress` | src/protocol/register_decoder.cpp:21-23 | A permutation sorted by address; the order of equal addresses is left open |
| `ReadPlanner.Pack` | src/protocol/register_decoder.cpp:25-53 | The pass over one table serves its sensors in order, in exact and legal blocks whose first sensors are pairwise incompatible |
| `ReadPlanner.PackedIsOptimal` | src/protocol/register_decoder.cpp:25-53 | Blocks with those properties are a legal plan, and no legal plan has fewer requests |
| `ReadPlanner.OnlyWhenEachFits` | src/protocol/register_decoder.cpp:9-56 | A legal plan exists only if no value is wider than max_quantity |
| `ReadPlanner.PlanReads` | src/protocol/register_decoder.cpp:9-56 | Every sensor is served exactly once by a block of exactly its sensors' range; a legal plan exists exactly when every value fits, and exactly then no block exceeds max_quantity and the result is such a plan; and no legal plan has fewer requests |
| `ReadPlanner.TooNarrow` | src/protocol/register_decoder.cpp:9-56 | The instance that shows it: with a limit of one register and a 32-bit sensor there is no legal plan, and whatever serves the sensor exactly asks for more |
| `ReadPlanner.QuantitiesForceFit` | src/protocol/register_decoder.cpp:44-53 | Exact blocks that all respect max_quantity show that every value does |
| `ReadPlanner.BlocksStayInRange` | src/core/config.cpp:249-252 | Sensors whose registers exist give requests whose registers all exist |
| `FrameCodec.EncodeRequest` | src/protocol/frame_codec.cpp:19-37 | The twelve bytes of the request frame, each given |
| `FrameCodec.FunctionCodes` | include/ironpulse/protocol/frame_codec.hpp:10-14 | The function codes are 3, 4 and 6, and no other is known |
| `FrameCodec.RequestRoundTrip` | src/protocol/frame_codec.cpp:19-37 | The device reads back exactly the request that was encoded |
| `FrameCodec.ExpectedFrameLength` | src/protocol/frame_codec.cpp:39-53 | An announced length is between 8 and 260 |
| `FrameCodec.AnnouncedExactly` | src/protocol/frame_codec.cpp:39-53 | A length is announced exactly by seven or more bytes with protocol zero and a length field from 2 to 254, and is six more than the field |
| `FrameCodec.DecodeResponse` | src/protocol/frame_codec.cpp:55-112 | The loop over the buffer computes the decoding function, malformed input included |
| `FrameCodec.ReplyRoundTrip` | src/protocol/frame_codec.cpp:55-99 | Decoding the standard's encoding of any read or exception response gives that response |
| `FrameCodec.ReplyLayout` | src/protocol/frame_codec.cpp:55-99 | Byte for byte the frame of a read response |
| `FrameCodec.ExceptionLayout` | src/protocol/frame_codec.cpp:62-81 | And of an exception response |
| `FrameCodec.WriteRoundTrip` | src/protocol/frame_codec.cpp:101-108 | Decoding a write response gives its value |
| `FrameCodec.DecodeCanonical` | src/protocol/frame_codec.cpp:55-112 | Every accepted read or exception buffer is the one encoding of its response; an accepted write echo is one up to its address |
| `FrameCodec.PrefixFree` | src/protocol/frame_codec.cpp:39-59 | No accepted frame is a proper prefix of another |
| `FrameCodec.StreamSplits` | src/protocol/modbus_client.cpp:199-238 | Reading seven bytes and then what they announce splits any concatenation of valid frames back into them |
| `RegisterDecode.IntegerRoundTrip` | src/protocol/register_decoder.cpp:58-84 | Every integer in a type's range decodes from the registers that store it, signed or not, in either word order |
| `RegisterDecode.SingleRoundTrip` | src/protocol/register_decoder.cpp:66-78 | Every single-precision pattern decodes in either word order to the number it stands for, and to none exactly when it is not finite |
| `RegisterDecode.SinglePinned` | src/protocol/register_decoder.cpp:77-78 | Zero stands for zero, the sign bit negates, and each finite pattern is 2^(max(exponent, 1) - 150) above the one before: together the value of every pattern |
| `RegisterDecode.PowerDoubles` | src/protocol/register_decoder.cpp:77-78 | The powers of two in that |
| `RegisterDecode.SingleExamples` | src/protocol/register_decoder.cpp:77-78 | The patterns of 1, -2 and an infinity decode to 1, -2 and nothing |
| `RegisterDecode.IntegerExtracted` | src/protocol/register_decoder.cpp:86-100 | A sensor whose registers in the block hold an integer of its type gets that integer times its scale plus its offset |
| `RegisterDecode.SingleExtracted` | src/protocol/register_decoder.cpp:86-100 | And so with a floating-point pattern, unless that is not finite |
| `RegisterDecode.BatchedReadIsDirect` | src/protocol/register_decoder.cpp:86-100 | A planned request is one a device may answer, a conforming answer is accepted, and every sensor of the block gets the value a read of its own would give |
| `RegisterDecode.MissingExactlyWhen` | src/protocol/register_decoder.cpp:86-100 | A value is missing exactly when the response does not reach the sensor or its float pattern is not finite |
| `ModbusRuns.StepInv` | src/protocol/modbus_client.cpp:34-277 | Every event keeps: what is on the wire, whose deadlines can go off, one callback per call, deliveries genuine, answers in order |
| `ModbusRuns.RequestsMatchAnswers` | src/protocol/modbus_client.cpp:120-269 | In every run callbacks fire once each and in call order, and registers delivered for a request are the device's own answer to it, with its transaction id and at least the quantity asked for |
| `ModbusRuns.WritesOnCleanConnection` | src/protocol/modbus_client.cpp:171-196 | When a request is actually being written, the connection is up and nothing is left over on it from before |
| `ModbusRuns.StaleDeadlineHarmless` | src/protocol/modbus_client.cpp:34-55 | A deadline handler of an older generation, or with no operation pending, changes nothing |
| `ModbusRuns.TimeoutDelivers` | src/protocol/modbus_client.cpp:39-49 | A request the device never answers has its deadline armed; firing it gives the callback an error and closes the connection |
| `ModbusRuns.PendingMovesOn` | src/protocol/modbus_client.cpp:64-269 | Every completion and handler brings the pending call closer to its callback and nothing takes it back |
| `ModbusRuns.ReadAnswerDelivered` | src/protocol/modbus_client.cpp:236-269 | A conforming read answer under the request's id is delivered register for register when it has as many as asked for or more, and refused as short when fewer; the connection stays |
| `ModbusRuns.WriteEchoDelivered` | src/protocol/modbus_client.cpp:151-169 | A write's echo is delivered |
| `ModbusRuns.ExceptionReported` | src/protocol/modbus_client.cpp:261-264 | An exception answer is reported with its code and keeps the connection |
| `ModbusRuns.ForeignAnswerCloses` | src/protocol/modbus_client.cpp:246-260 | An undecodable answer or one under another id is an error and closes the connection |
| `ModbusRuns.RequestBegins` | src/protocol/modbus_client.cpp:171-196 | A request on an open, idle connection is being written at once, with its deadline armed |
| `ModbusRuns.ReadSucceeds` | src/protocol/modbus_client.cpp:171-269 | From there, written, answered conformingly and read in two parts, it ends with exactly the answer's registers delivered and the connection ready for the next |
| `ModbusRuns.ConnectSucceeds` | src/protocol/modbus_client.cpp:64-103 | A connect to which nothing happens ends connected and ready |
| `ModbusRuns.SameIdExactly` | src/protocol/modbus_client.cpp:126-132 | Requests are numbered from 1 modulo 2^16: two have the same id exactly when their distance is a multiple of 2^16 |
| `ModbusRuns.ConnectTimesOut` | src/protocol/modbus_client.cpp:39-49 | Under its deadline a connect that hangs ends: firing it fails the callback and leaves the client disconnected |
| `ModbusRuns.CoveredExactlyUnless` | include/ironpulse/protocol/modbus_client.hpp:33-36 | Every connect starts under an armed deadline, and a step leaves it waiting without one exactly when it is a close before the resolve handler has run or the deadline going off between the resolve and its handler |
| `ModbusRuns.AlwaysCoveredExactlyUnless` | include/ironpulse/protocol/modbus_client.hpp:33-36 | Over every run: all connects are under a deadline in all its states if and only if it contains no such event |
| `ModbusRuns.SlipsHappen` | src/protocol/modbus_client.cpp:39-92 | Both kinds of such event happen in four steps of a new client and leave it connecting without a deadline |
| `ModbusRuns.UncoveredHangs` | src/protocol/modbus_client.cpp:39-92 | From then on only the network's own completion or a close ends the connect, whatever else happens |
| `ModbusRuns.CloseHoldsExactly` | src/protocol/modbus_client.cpp:271-277 | After close the client stays disconnected, in every run until the next connect call, if and only if no connect was resolving or had its last successful handler queued |
| `ModbusRuns.CloseFails` | src/protocol/modbus_client.cpp:271-277 | The failing side happens: right after the first connect call a close does not hold |
| `Modbus.ModbusClient.ArmDeadline` | src/protocol/modbus_client.cpp:34-50 | Takes a new generation, clears the timeout flag and queues a wait for it |
| `Modbus.ModbusClient.DisarmDeadline` | src/protocol/modbus_client.cpp:52-55 | Takes a new generation, so that queued waits are stale |
| `Modbus.ModbusClient.CloseSocket` | src/protocol/modbus_client.cpp:57-62 | Drops the connection and fails the socket operation under way |
| `Modbus.ModbusClient.OnDeadline` | src/protocol/modbus_client.cpp:39-49 | Keeps the invariants and is the machine's deadline event: only an expired wait of the current generation times out and closes |
| `Modbus.ModbusClient.Connect` | src/protocol/modbus_client.cpp:64-71 | Keeps the invariants and is the machine's connect call: closes, arms the deadline and starts resolving |
| `Modbus.ModbusClient.OnResolved` | src/protocol/modbus_client.cpp:72-81 | Keeps the invariants and is the machine's handler step: fails the call, or starts connecting |
| `Modbus.ModbusClient.OnConnected` | src/protocol/modbus_client.cpp:83-100 | Likewise: disarms, then closes and fails or becomes connected |
| `Modbus.ModbusClient.Call` | src/protocol/modbus_client.cpp:120-169 | Keeps the invariants and is the machine's request call: takes the next 16-bit transaction id and sends the request |
| `Modbus.ModbusClient.SendRequest` | src/protocol/modbus_client.cpp:171-196 | Fails at once when not connected, otherwise arms the deadline and writes |
| `Modbus.ModbusClient.OnWritten` | src/protocol/modbus_client.cpp:184-206 | Keeps the invariants and is the machine's handler step: fails and closes, or starts reading the header |
| `Modbus.ModbusClient.OnHeader` | src/protocol/modbus_client.cpp:207-234 | Likewise: fails and closes on an error or an implausible length, or reads what the header announces |
| `Modbus.ModbusClient.OnBody` | src/protocol/modbus_client.cpp:236-267 | Likewise: closes on an error, an undecodable frame or a foreign transaction id; reports exceptions and short answers; otherwise delivers the registers |
| `Modbus.ModbusClient.Close` | src/protocol/modbus_client.cpp:271-277 | Keeps the invariants and is the machine's close call: disarms and closes |
| `Acquisition.DeliveredReadIsDirect` | src/protocol/modbus_client.cpp:120-149 | In every run, a read of a planned block that delivered registers, whose answer was conforming or one the client rejects, delivered exactly the block's registers, and each sensor decodes from them to its own value |
| `PollRuns.StepInv` | src/protocol/device_poller.cpp:27-169 | Every event keeps: one thing pending, collected values from the answers so far, published readings, statuses, schedule |
| `PollRuns.ReadingsMeaning` | src/protocol/device_poller.cpp:109-121 | The loop over the values publishes readings in index order, all with the one timestamp, for exactly the sensors that have a value, and that value |
| `PollRuns.PollerRuns` | src/protocol/device_poller.cpp:27-169 | In every run at most one of timer, connect, request is pending, exactly one while running; the readings published are, cycle after cycle, those of the cycles whose every block was answered: sensors strictly increasing, one timestamp, exactly the values the answers give; statuses alternate; ticks are paced |
| `PollRuns.CycleBegins` | src/protocol/device_poller.cpp:43-71 | The first tick and every later one begin a cycle, with the first block when the client is connected and with a connect when it is not |
| `PollRuns.ConnectLeadsOn` | src/protocol/device_poller.cpp:54-67 | A connect that succeeded leads on to the first block, one that failed ends the cycle with one error and the connection's status |
| `PollRuns.ReplyLeadsOn` | src/protocol/device_poller.cpp:82-137 | An answer leads on to the next block or, after the last, to online and the readings; an error ends the cycle with one error and, unless already said, the connection's status |
| `PollRuns.TicksSpaced` | src/protocol/device_poller.cpp:139-158 | Ticks k apart lie at least k intervals apart |
| `PollRuns.FixedRate` | src/protocol/device_poller.cpp:139-158 | The k-th tick is start + k * interval exactly as long as no cycle overran the next tick |
| `PollRuns.ValueFromItsBlock` | src/protocol/device_poller.cpp:91-96 | A sensor's value comes from the answer to the one block that serves it |
| `PollRuns.CycleIsDirect` | src/protocol/device_poller.cpp:73-121 | Against replies that are the device's registers a finished cycle publishes what reading each sensor alone would give |
| `PollRuns.StoppedIsSilent` | src/protocol/device_poller.cpp:43-48 | After stop nothing more is published and what was pending dies out |
| `Polling.DevicePoller.constructor` | src/protocol/device_poller.cpp:18-25 | The blocks come from the planner with 125 registers and gap 8 |
| `Polling.DevicePoller.Start` | src/protocol/device_poller.cpp:27-41 | Keeps the invariants and is the machine's event: the first tick is now, and the first cycle runs |
| `Polling.DevicePoller.RunCycle` | src/protocol/device_poller.cpp:50-71 | Connects first when needed, otherwise reads the first block |
| `Polling.DevicePoller.ReadBlock` | src/protocol/device_poller.cpp:73-107 | Requests the next block, or finishes the cycle after the last |
| `Polling.DevicePoller.OnConnected` | src/protocol/device_poller.cpp:56-66 | Keeps the invariants and is the machine's event: fails the cycle or reads the first block |
| `Polling.DevicePoller.OnReply` | src/protocol/device_poller.cpp:82-98 | Keeps the invariants and is the machine's event: fails the cycle, or stores the block's values and goes on |
| `Polling.DevicePoller.Store` | src/protocol/device_poller.cpp:93-95 | The loop overwrites exactly the values of the block's sensors |
| `Polling.DevicePoller.FinishCycle` | src/protocol/device_poller.cpp:109-121 | Publishes online and then one reading per sensor that has a value |
| `Polling.DevicePoller.FailCycle` | src/protocol/device_poller.cpp:123-137 | Publishes the error and the status the connection shows |
| `Polling.DevicePoller.ScheduleNext` | src/protocol/device_poller.cpp:139-158 | Keeps the invariants and is the machine's event: one interval after the last tick, or after now when that has passed |
| `Polling.DevicePoller.PublishStatus` | src/protocol/device_poller.cpp:160-169 | Publishes only a status that differs from the last one |
| `Polling.DevicePoller.OnTimer` | src/protocol/device_poller.cpp:153-157 | Keeps the invariants and is the machine's event: runs the next cycle unless the wait was cancelled |
| `Station.PlanIsSound` | src/protocol/register_decoder.cpp:9-56 | The planner's blocks for registers that exist are a set-up the results about poller and client together cover |
| `Station.StepInv` | src/protocol/device_poller.cpp:27-107 | Every step of poller, client, device or network keeps both machines' invariants and the link between them |
| `Station.OneCallAtATime` | include/ironpulse/protocol/modbus_client.hpp:29-31 | In every run there is exactly one call posted, in progress or called back while the poller waits for the client, and none otherwise: one request at a time, no callback lost or handled twice |
| `Station.SidesFit` | src/protocol/device_poller.cpp:50-107 | Whatever posted call or callback runs next, the side it reaches is in a state that allows it |
| `Station.PublishesAnswers` | src/protocol/device_poller.cpp:73-121 | In every run, whatever network and device do, published readings are cycle by cycle decoded from the device's own answers to that cycle's consecutive reads, block after block |
| `Station.PublishesTheDevice` | src/protocol/device_poller.cpp:73-121 | Against a device whose answers are true or rejected, with registers that may change between requests, every finished cycle publishes exactly the value each sensor had when its block was read, in configuration order with one timestamp |
| `Station.FailedCycleReports` | src/protocol/device_poller.cpp:123-137 | Whatever made it fail, a cycle given up publishes one error and then, unless already said, whether the client is connected at that moment |
| `Station.TickPublishes` | src/protocol/device_poller.cpp:43-121 | A tick of a connected poller whose blocks are all answered conformingly ends, by steps that are all possible, in online, unless already said, and exactly the value each sensor had when its block was read |
| `Station.ConnectPublishes` | src/protocol/device_poller.cpp:43-121 | The same for a poller that has to connect first |
| `Station.FirstCyclePublishes` | src/protocol/device_poller.cpp:27-121 | And from a new poller, for every configuration: started, connected, every block read, online and the device's values published |
| `Station.SilentDeviceGoesOffline` | src/protocol/device_poller.cpp:123-137 | A request never answered ends through deadline, client handler and poller handler in one error and, unless already said, an offline status |
| `Station.HungConnectGoesOffline` | src/protocol/device_poller.cpp:123-137 | So does a connect that hangs under its deadline |
| `Station.ScheduledAgain` | src/protocol/device_poller.cpp:139-158 | In both cases the poller then arms its timer for a tick at most one interval away |
| `Station.StallsWithConnect` | src/protocol/device_poller.cpp:50-71 | A connect without a deadline holds up the poller: until the network completes it or the client is closed, nothing is published or scheduled |
| `Station.StallHappens` | src/protocol/device_poller.cpp:50-71 | It happens in five steps of a first cycle, for every configuration |
| `Verdicts.SquaredIsDirect` | include/ironpulse/analytics/detector.hpp:48-50 | For every threshold, negative ones included, comparing and scoring with squares is what the source does with |deviation| / stddev |
| `Ewma.Warmup` | include/ironpulse/analytics/strategies/ewma.hpp:28-31 | The least number of samples that times max(alpha, 0.001) reaches 3 |
| `Ewma.RunningIsWeighted` | include/ironpulse/analytics/strategies/ewma.hpp:33-58 | After any history the running mean and variance are the exponentially weighted mean and the exact weighted variance about it |
| `Ewma.WeightsSumToOne` | include/ironpulse/analytics/strategies/ewma.hpp:33-58 | The weights are not negative and sum to one |
| `Ewma.RunningBounds` | include/ironpulse/analytics/strategies/ewma.hpp:33-58 | The variance is never negative and the mean stays between the smallest and the largest sample |
| `Ewma.VotesExactlyWhen` | include/ironpulse/analytics/strategies/ewma.hpp:36-45 | For every threshold, the detector judges exactly when warmed up and the history varied; it votes when the threshold is negative or the value lies beyond that many deviations from the weighted mean, and scores by how many it does |
| `Ewma.EwmaDetector.Observe` | include/ironpulse/analytics/strategies/ewma.hpp:33-58 | Updates mean, variance and count in place as the specification functions say, and returns the verdict on the old state |
| `Cusum.SumsAreMaxSuffixes` | include/ironpulse/analytics/strategies/cusum.hpp:34-55 | Each side is the larger of zero and the maximum suffix sum, since the last alarm, of what it adds up |
| `Cusum.FiresExactlyWhen` | include/ironpulse/analytics/strategies/cusum.hpp:34-55 | It fires exactly when some stretch since the last alarm that ends in the new value sums to more than the threshold on one side |
| `Cusum.AlarmsExactlyWhen` | include/ironpulse/analytics/strategies/cusum.hpp:25-46 | The same on the values themselves, each less the reference mean and divided by the reference deviation, but by at least 1e-9; and its score is the greatest sum |
| `Cusum.QuietWithinSlack` | include/ironpulse/analytics/strategies/cusum.hpp:34-55 | It never fires when every standardized value is within the slack |
| `Cusum.ShiftDetected` | include/ironpulse/analytics/strategies/cusum.hpp:34-55 | A shift of slack + d that lasts floor(threshold / d) + 1 values raises an alarm within them, from any reachable state |
| `Cusum.CusumDetector.Observe` | include/ironpulse/analytics/strategies/cusum.hpp:34-55 | Accumulates, judges and resets in place as the specification functions say |
| `ZScore.WindowIsLast` | include/ironpulse/analytics/detector.hpp:55-58 | The window always holds the last window_size values |
| `ZScore.VotesExactlyWhen` | include/ironpulse/analytics/detector.hpp:33-53 | For every threshold, it judges exactly when two values, half the window and five, or the whole window, were seen and they varied; it votes when the threshold is negative or the value lies beyond that many deviations from their mean, and scores by how many it does |
| `ZScore.MeanAndVariance` | include/ironpulse/analytics/detector.hpp:68-81 | n times the mean is the sum, and n times the variance is the sum of squares less n times the squared mean |
| `ZScore.ZScoreDetector.ComputeMean` | include/ironpulse/analytics/detector.hpp:68-72 | The loop computes the window's mean |
| `ZScore.ZScoreDetector.ComputeVariance` | include/ironpulse/analytics/detector.hpp:74-81 | The loop computes the square of the window's standard deviation |
| `ZScore.ZScoreDetector.Observe` | include/ironpulse/analytics/detector.hpp:40-61 | Judges on the old window and then slides it |
| `RuleEngine.LimitAlertsExactly` | include/ironpulse/analytics/rule_engine.hpp:129-145 | A limit alert is raised exactly when the value is over the high limit, or not and under the low one, where the one before was not on that side, and every earlier limit alert is at least a cooldown old; detectors play no part |
| `RuleEngine.VoteAlertsExactly` | include/ironpulse/analytics/rule_engine.hpp:166-191 | A statistical alert is raised exactly when the number of detectors that, each having seen every earlier reading, call the value anomalous is at least the votes required and every earlier one is at least a cooldown old; limits play no part |
| `RuleEngine.AlertsSay` | include/ironpulse/analytics/rule_engine.hpp:129-214 | One reading raises at most one alert of each kind, limit first: with the value, the limit crossed, the side and the distance; and with exactly the alarmed detectors in order, their total and the highest score |
| `RuleEngine.DetectorsSeeEverything` | include/ironpulse/analytics/rule_engine.hpp:174-185 | Every detector's state is the fold of all readings, also of those whose alerts were suppressed |
| `RuleEngine.OffSideBetween` | include/ironpulse/analytics/rule_engine.hpp:140-145 | Between two limit alerts on one side some reading is off that side |
| `RuleEngine.AlertsSpaced` | include/ironpulse/analytics/rule_engine.hpp:117-121 | Alerts of one kind are pairwise at least a cooldown apart, whatever the timestamps do |
| `RuleEngine.WindowBound` | include/ironpulse/analytics/rule_engine.hpp:117-121 | A window of length w holds at most floor(w / cooldown) + 1 alerts of one kind |
| `RuleEngine.SensorsIndependent` | include/ironpulse/analytics/rule_engine.hpp:79-102 | However readings of many sensors interleave, each sensor's alerts are those of its own readings; an unregistered sensor raises none |
| `RuleEngine.CheckLimits` | include/ironpulse/analytics/rule_engine.hpp:129-164 | Raises the alert with the limit crossed and the distance to it, and updates side and last alert |
| `RuleEngine.Poll` | include/ironpulse/analytics/rule_engine.hpp:174-185 | The loop collects every verdict, the voters' names in order and every detector's new state |
| `RuleEngine.RunDetectors` | include/ironpulse/analytics/rule_engine.hpp:166-214 | Raises the alert with voters, count and highest score exactly when vote and cooldown allow it |
| `RuleEngine.RuleEngine.RegisterSensor` | include/ironpulse/analytics/rule_engine.hpp:64-74 | Replaces the sensor's rule by a fresh one; zero votes required means all |
| `RuleEngine.RuleEngine.Observe` | include/ironpulse/analytics/rule_engine.hpp:79-102 | Leaves an unregistered sensor alone; otherwise updates its rule only and publishes its alerts, limit first |
| `RecentBuffer.WindowPush` | include/ironpulse/storage/ring_buffer.hpp:31-38 | Overwriting the write slot drops the oldest sample exactly when the buffer is full |
| `RecentBuffer.RingBuffer.Push` | include/ironpulse/storage/ring_buffer.hpp:31-38 | The contents become the last `capacity` of the old contents and the new sample |
| `RecentBuffer.RingBuffer.Latest` | include/ironpulse/storage/ring_buffer.hpp:41-48 | The newest sample, if any |
| `RecentBuffer.RingBuffer.Recent` | include/ironpulse/storage/ring_buffer.hpp:51-61 | The last min(count, size) samples, oldest first |
| `WalLog.RecordRoundTrip` | include/ironpulse/storage/wal_writer.hpp:17-22 | A record reads back from its 16 bytes, negative times included |
| `WalLog.RecordLayout` | include/ironpulse/storage/wal_writer.hpp:19-22 | Byte for byte a record's time, in two's complement, and its value |
| `WalLog.LogRoundTrip` | include/ironpulse/storage/wal_writer.hpp:99-113 | Records written are read back whatever torn record follows them |
| `WalLog.AppendsReadBackExactlyWhen` | include/ironpulse/storage/wal_writer.hpp:83-113 | For every file: all records appended to it are read back behind what it held if and only if it ends with a whole record |
| `WalLog.TornTailMisreads` | include/ironpulse/storage/wal_writer.hpp:83-88 | The instance: one byte of a record, then a record, does not read back |
| `WalLog.CrashWholeExactly` | include/ironpulse/storage/wal_writer.hpp:83-88 | A crash in the middle of a flush leaves files of whole records exactly when the bytes of that flush which reached the file are a multiple of 16 |
| `WalLog.ReadAll` | include/ironpulse/storage/wal_writer.hpp:101-113 | The loop returns every whole record of the file |
| `WalLog.LogIsHistory` | include/ironpulse/storage/wal_writer.hpp:41-62 | Across any sequence of appends, flushes, reads, prunes, crashes in the middle of a flush that tear no record and crashes in the middle of a prune, a sensor's file and waiting records are exactly what the book of its events says: nothing reordered, lost only what a crash caught in memory or a prune found expired |
| `WalLog.NothingLostWithoutCrash` | include/ironpulse/storage/wal_writer.hpp:151-198 | Without crashes in a flush, file ++ pending is exactly the appended records minus those that a prune, finished or cut short by a crash, removed as expired, in order |
| `WalLog.PendingBounded` | include/ironpulse/storage/wal_writer.hpp:41-51 | Fewer than flush_batch_size records of a sensor ever wait in memory |
| `WalLog.KeptMeans` | include/ironpulse/storage/wal_writer.hpp:170-176 | A prune keeps exactly the records at or after the cutoff, each as often as it occurred |
| `WalLog.KeptConcat` | include/ironpulse/storage/wal_writer.hpp:170-176 | And keeps them in their order: stretch by stretch |
| `WalWriting.WalWriter.Append` | include/ironpulse/storage/wal_writer.hpp:41-51 | Adds the record with its time truncated to milliseconds and flushes a full batch |
| `WalWriting.WalWriter.FlushAll` | include/ironpulse/storage/wal_writer.hpp:55-62 | The loop writes every waiting record behind its file and empties the buffers |
| `WalWriting.WalWriter.ReadSince` | include/ironpulse/storage/wal_writer.hpp:132-149 | Flushes the sensor and returns exactly the records of its log at or after the time |
| `WalWriting.WalWriter.PruneOlderThan` | include/ironpulse/storage/wal_writer.hpp:151-198 | Flushes everything, leaves in every file exactly its unexpired records, untouched when none is expired, and returns the number of expired records of all files |
| `SeriesRuns.CacheAgreesWithLog` | include/ironpulse/storage/series_store.hpp:38-46 | With no age limit and until a finished prune, every buffer touched since the last restart holds the last `capacity` records of its sensor's log, flushed or not, over any run with restarts, replays, crashes in the middle of a prune and crashes in the middle of a flush that tear no record |
| `SeriesRuns.AgreesAfterCrashExactly` | include/ironpulse/storage/series_store.hpp:38-46 | After a crash that left any number of bytes of its flush in the file, buffers and log agree in every later run if and only if that number is a multiple of 16 |
| `SeriesRuns.OpenAgrees` | include/ironpulse/storage/series_store.hpp:31-36 | A store opened on the files of an earlier run agrees from the start |
| `SeriesRuns.RestartKeepsFlushed` | include/ironpulse/storage/wal_writer.hpp:53-62 | A flushed restart keeps the whole log |
| `SeriesRuns.PruneKeepsEnds` | include/ironpulse/storage/wal_writer.hpp:151-198 | A prune of records in time order leaves buffer and log agreeing from the newest record back as far as both reach |
| `SeriesRuns.EndsAlwaysAgree` | include/ironpulse/storage/series_store.hpp:38-46 | For every age limit of replays, over every run, prunes, crashes in a prune and untorn crashes in a flush included, whose records come in time order per sensor, buffer and log agree from the newest record back as far as both reach |
| `SeriesRuns.OpenFollows` | include/ironpulse/storage/series_store.hpp:31-36 | A store opened on logs in time order agrees so from the start, whatever its age limit |
| `Series.SeriesStore.GetOrCreate` | include/ironpulse/storage/series_store.hpp:100-114 | Creates the buffer from the replayed file the first time a sensor is seen, and leaves a known one alone |
| `Series.SeriesStore.Replay` | include/ironpulse/storage/wal_writer.hpp:115-129 | Replays the records that are not too old; the last `capacity` remain |
| `SeriesRuns.RecentMeans` | include/ironpulse/storage/wal_writer.hpp:115-129 | A replay keeps exactly the records no older than the age limit, each as often as it occurs |
| `SeriesRuns.RecentConcat` | include/ironpulse/storage/wal_writer.hpp:115-129 | And keeps them in order |
| `SeriesRuns.MemoryOnly` | include/ironpulse/storage/series_store.hpp:38-46 | A store without a log holds for every sensor recorded its last `capacity` samples |
| `Series.SeriesStore.Record` | include/ironpulse/storage/series_store.hpp:38-46 | Pushes into the sensor's buffer and appends to its log |
| `Series.SeriesStore.RecentOf` | include/ironpulse/storage/series_store.hpp:57-64 | The last `count` samples of the buffer, which are the last `count` records of the log while the two agree |
| `Series.SeriesStore.LatestOf` | include/ironpulse/storage/series_store.hpp:48-55 | The newest sample of a known sensor, if it has one |
| `Series.SeriesStore.History` | include/ironpulse/storage/series_store.hpp:69-81 | With a log, exactly its records at or after the time; without one, the buffered samples |
| `Series.SinceMeans` | include/ironpulse/storage/series_store.hpp:69-81 | Without a log it keeps exactly the samples at or after the time, each as often as it occurs |
| `Series.SinceConcat` | include/ironpulse/storage/series_store.hpp:69-81 | And keeps them in order |

## Left out

- Sockets, executors, DNS, thread creation and the C++ memory order annotations themselves: replaced by events and steps; a reload may return any value between the last one seen and the one published.
- Exporter: `start` while a `stop` call is still in progress; the model lets one finish first, because a consumer joined under a restarted exporter would leave producers without one.
- SpscWrap: does not model the third-thread size observer of `SpscRing`, because it changes nothing in the ring.
- File-system failures other than a failed create, header write or batch write: renames, removals and directory listings succeed, and the listing holds only this format's segments, kept in name order as the sort establishes.
- Creation times are compared as numbers; the six-digit sequence padding and the calendar spelling of file names are not modelled.
- The JSON tag table: opaque bytes with a partial decoder; statements assume the decoder accepts the table the writer wrote. Tag tables are shorter than 2^32 bytes and batch sizes below 2^32, as the configuration caps them.
- `Serializer::decode_view`: the same checks as `decode_copy` plus an address alignment test.
- CPUID and the CRC instruction: the instruction is its bit-serial meaning, and the choice of path is a parameter.
- Modbus write responses: the echoed address is discarded by the decoder, so a write response is canonical only up to it.
- ModbusRuns: does not claim that `connected_` implies an open socket, because a close or deadline may run between a completion being queued and its handler running; the interleaving is in the model.
- ModbusRuns: a device that sends bytes unasked, several answers to one request, or an answer longer than its own header announces; cut-short, malformed and foreign answers are in the model. The 64-bit deadline generation is unbounded.
- PollRuns: `start` is called once, as the server does; log messages are not modelled.
- Rounding: detectors, scale and offset are over the reals, so overflow of a finite register value to infinity is not modelled; a float register maps to the exact number of its pattern.
- Detector confidence values and alert message texts: display only. Scores appear squared for the deviation detectors.
- RuleEngine.RuleEngine.Observe: does not model the mutex; calls are atomic, and detectors are held by value instead of behind a virtual interface.
- RuleEngine: does not claim that every excursion raises an alert, because an entry suppressed by the cooldown is not raised again.
- WalWriting: a prune whose temporary file cannot be written skips that file; file operations succeed here.
- Series.SeriesStore.Record: does not model the buffers as shared objects or the mutexes, because each buffer is held as its contents; `RecentBuffer.RingBuffer` proves that the real buffer maintains exactly these.
- WalLog: does not model a power failure that loses bytes of files flushed earlier; a crash loses what is in memory and cuts the flush in progress, of which there is one at a time under the lock, or leaves a prune with some files renamed into place and others not. A temporary file it leaves behind is read by nobody.
- RecentBuffer: a capacity of zero, which divides by zero in the source.
- Retention policy objects, WebSocket server, HTTP routes, notifiers, templates, metrics, SHA-1, Base64, configuration parsing, thread pool, event bus, dashboard and tools: plumbing or easy members.
