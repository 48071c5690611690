# Verified models of ubpftrace

A Dafny project that models the parts of ubpftrace whose behaviour is hardest to see from the code,
and proves what they promise. `dafny verify dfyconfig.toml` checks all of it.

**Trace path of a node.** The lock-free double buffer in shared memory, between any number of probes
and one I/O worker, is a state machine over its atomic operations (`ShmBuffer`, `ShmRuns`,
`ShmDelivery`), in which the worker's flip of the active buffer becomes visible to the probes at any
later step and a clock moves on at any step; `ShmHazards` says exactly when a drain wait is safe,
`ShmClock` and `ShmOrder` when the timestamps of a file are in order, and `ShmScenarios` and
`ShmExamples` build runs that end badly. The container file with its chunk headers, checksums, index and
trailer is written by a class and read by methods (`ContainerWriter`, `ContainerFile`, `Container`), the
index by `ContainerIndex`; the record framing, payload rendering, CRC-32 and the k-way merge of node files
follow the decoder (`Framing`, `Payload`, `Crc32`, `Merge`), and `PayloadReader` reads back what is shown.
`Pipeline` joins them: a writer is fed the chunks of a run, and every event of a successful call comes out
of the decoded file exactly once.

**Script parser.** The grammar is a function of a view of the text (`Grammar`), with the scan of white
space and comments (`LayoutScan`) and of tokens (`Tokens`) below it. `ScriptParser` is the parser as
it runs, a class that moves a position and keeps its line and column, each method proved against the
grammar through the equations in `GrammarAt`. `Precedence` proves what climbing computes, `Operators` which
operators there are and how chains of them are read, `Literals` which characters and numbers, `Printer` and
`RoundTrip` that every way to write an expression is read back, `Canonical` which expressions there
are, `Normalize` and `NormalizeInPlace` what the rewrite of unused block values preserves.

**Types and layout.** Comparison, compatibility, fitting and promotion of types (`Types`, `TypeOrder`,
`TypeFit`, `Promotion`, `IntegerJoin`, with the loops in `TypeLoops`), and what they mean: types compare as
keys in dictionary order (`Lexicographic`, `TypeKeys`), are compatible if they have one shape (`TypeShapes`)
and fit if their values do (`TypeValues`). The layout of nested tuples and records (`Layout`, `TypeLayout`),
bitfields and the collection of fields from type information (`Bitfield`, `BtfFields`).

**Output.** Log-linear histograms (`Histogram`, `HistogramOutput`) and sorting by key (`StableSort`,
`SortKeys`).

## Where the code does not do what one might expect

- A drain wait that gives up after 500 polls lets the worker flush a record that is still being copied
  (`ShmScenarios.TimeoutTearsRecord`), and after it two probes can be given the same bytes of a block
  (`ShmScenarios.TimeoutSharesSpace`).
- A wait that ends because the writer count is zero is not enough either. The flip is a release store and
  the count an acquire load, so the count may be read before the probes see the flip; a probe then enters
  the block under the old epoch and its record is torn without any timeout
  (`ShmScenarios.UnseenFlipTearsRecord`). A block is left alone exactly when no probe is active on it and
  the flip is visible (`ShmHazards.DrainSafeIff`, `ShmHazards.CountZeroSafeIff`).
- After a reservation that overflowed, a chunk is flushed to its full capacity and ends in bytes left over
  from an earlier use of the block. They are decoded as events unless the decoder's guard stops it right
  behind the records (`ShmDelivery.EveryEventDelivered`); in a run where every wait ends well, an event
  recorded once can come out twice (`ShmExamples.StaleRecordAgain`).
- Timestamps are read after the space is claimed, so the file of a node need not be in their order: two
  calls that overlap can come out with the later stamp first (`ShmExamples.OverlapUnsorted`). The file is in
  order if and only if no call takes its stamp after a call with a later place took one and the clock moved
  on, and whatever is decoded from behind overflowed chunks fits in (`ShmOrder.FileSortedIff`). Calls that
  do not overlap are never overtaken (`ShmOrder.SerialSorted`). A merge of files that are not in order is
  not sorted either (`Merge.MergeSortedIff`).
- The total in the trailer is a sum of running totals, and a call counts itself only after it has released
  its block. Three recorded calls in two chunks are announced as five (`Pipeline.TrailerOvercounts`), one
  recorded call as none (`Pipeline.TrailerUndercounts`), and the two errors can cancel
  (`Pipeline.TrailerMadeUp`); when the total is right is stated by `Pipeline.TrailerExactIff`.
- A file that ends inside the data of a chunk derails the decoder: the cut chunk is listed, the failed
  stream reports position -1, and the loop is entered again with a header that was never read
  (`ContainerFile.TruncatedBreaks`). Exactly which files do this is stated by `Container.BrokenIff` and, for
  what is left of a closed file that was cut anywhere behind its header, by
  `ContainerFile.TruncatedBrokenIff`; nothing is promised about what is then shown.
- A logged action whose sixteen or twenty-four bytes all happen to be printable is shown as text, not as an
  action with its numbers (`PayloadReader.TextIsShown`, `PayloadReader.LoggedIsRead`).
- The lookahead over comments and the consuming scan differ on a continuation line such as `**/`, and on
  vertical tabs and form feeds (`LayoutScan.LookaheadCounterexample`), but not always: what follows the
  hidden closer may bring them together again (`LayoutScan.HiddenButAgrees`). What decides it in the text is
  stated by `LayoutScan.PlainAgreesIff` (texts without a hidden closer), `LayoutScan.CommentAgreesIff` (one
  comment) and `LayoutScan.HiddenAgreesIff` (a comment with a hidden closer);
  `LayoutScan.LookaheadAgreesIff` only puts them together, as a race of the two scans item by item. The
  keyword test and the keyword match then differ exactly on the words only one of the scans stops at
  (`Tokens.KeywordsAgreeIff`, `Tokens.KeywordCounterexample`).
- Normalising `{ f() } ?: g()` in place changes its condition, which is the same node as its first
  branch (`NormalizeInPlace.ShortConditionalChanges`); `NormalizeInPlace.InPlaceIff` says exactly when
  this happens.
- `uint64` and a signed integer have no common type that holds both (`Promotion.PromotionIsBoundIff`),
  and pointers to enumerations lose the name when they are promoted (`Promotion.EqualPromotes`). Fitting is
  not transitive through sign-flexible integers (`TypeFit.TransitiveThroughIff`). The order of promotions
  does not matter among flexible integers, nor among others (`IntegerJoin.FoldIgnoresOrder`); for two
  integers it matters exactly when they agree in size and sign and only one is flexible
  (`IntegerJoin.PairCommutesIff`).
- An anonymous structure that does not start at a whole byte shifts the named members inside it
  (`BtfFields.PlacedRightIff`).
- A histogram bucket whose count has low 32 bits that are zero or at least 2^31 is not seen when the
  range of buckets is determined; every count that a divisor leaves above zero is shown if and only if it
  lies between two that are seen (`HistogramOutput.ShownIffNothingHidden`, `HistogramOutput.HiddenBucket`).
- Unsigned keys are sorted as signed numbers; the report is in numeric order if and only if all keys have
  the same top bit (`SortKeys.ReportUnsignedIff`, `SortKeys.LargeKeyFirst`), and with several fields if and
  only if no two keys first differ in an unsigned field by its top bit (`SortKeys.ReportFieldsIff`).

## Model

| member | source | states |
|---|---|---|
| `Crc32.ComputeCrc32` | tools/ubpftrace_cat.cpp:21-31 | the nested loops compute the checksum function `Crc` |
| `Crc32.RegisterLoop` | tools/ubpftrace_cat.cpp:23-29 | the register after any number of bytes |
| `Crc32.MaskTrick` | tools/ubpftrace_cat.cpp:27 | and-ing with the negated low bit selects the generator exactly when the bit is set |
| `Crc32.PolyWord` | tools/ubpftrace_cat.cpp:27 | the constant is the reflected CRC-32 generator polynomial |
| `Crc32.ByteLoopIsBitSerial` | tools/ubpftrace_cat.cpp:23-29 | byte by byte equals a bit-serial shift register fed least significant bit first |
| `Crc32.StepInjective` | tools/ubpftrace_cat.cpp:27 | one shift loses no information |
| `Crc32.FeedInjective` | tools/ubpftrace_cat.cpp:23-29 | different registers stay different over any further message |
| `Crc32.BurstDetected` | tools/ubpftrace_cat.cpp:133-134 | two buffers of one length that differ only inside 32 consecutive bits cannot both match a stored checksum |
| `Crc32.CrcIsRemainder` | tools/ubpftrace_cat.cpp:21-31 | the checksum is the remainder of dividing the padded message by the generator |
| `Payload.CheckText` | tools/ubpftrace_cat.cpp:171-180 | whether every byte of a payload may be shown as text |
| `Payload.StripTail` | tools/ubpftrace_cat.cpp:182-186 | how much is left without trailing zeros and line ends |
| `Payload.RenderPayload` | tools/ubpftrace_cat.cpp:169-214 | the text shown for a payload, text or binary |
| `PayloadReader.DecimalReads` | tools/ubpftrace_cat.cpp:192-208 | a shown number is in digits, without leading zero, that stand for it |
| `PayloadReader.TextIsShown` | tools/ubpftrace_cat.cpp:169-187 | a payload of printable bytes, tabs and line ends, the last byte possibly zero, is shown byte by byte up to the last that is no zero or line end |
| `PayloadReader.ReportIsRead` | tools/ubpftrace_cat.cpp:188-213 | from what is shown for any other payload a reader of the shown texts recovers the action and the numbers in its bytes, or its size |
| `PayloadReader.LoggedIsRead` | tools/ubpftrace_cat.cpp:188-204 | an action logged with one number or two is read back, unless its bytes happen to be printable |
| `Framing.DecodeEvents` | tools/ubpftrace_cat.cpp:155-219 | the decoding loop yields the events of the framing specification, on every buffer |
| `Framing.DecodeLoop` | tools/ubpftrace_cat.cpp:157-218 | the same from any point on, with termination |
| `Framing.EncodeIsRecord` | bpftime/runtime/src/hpc/ubpf_agent_manager.cpp:183-199 | the bytes a probe writes are a record of its event |
| `Framing.DecodeThrough` | tools/ubpftrace_cat.cpp:157-218 | records anywhere in a buffer decode to their events, then decoding goes on behind them |
| `Framing.DecodeRoundTrip` | tools/ubpftrace_cat.cpp:155-219 | a concatenation of records decodes to exactly their events |
| `Framing.DecodeTruncated` | tools/ubpftrace_cat.cpp:155-219 | any truncation decodes to exactly the records wholly inside it |
| `Framing.WholeRecordsExact` | tools/ubpftrace_cat.cpp:157-163 | how many records are wholly inside |
| `ShmBuffer.InvStep` | bpftime/runtime/include/hpc/ubpf_shm_buffer.hpp:70-118 | every step of every probe, of the worker and of the clock, and the flip becoming visible at any moment, keeps the invariant: writer counts, disjoint reservations, stamped and copied bytes, hazard protection |
| `ShmBuffer.SlotsDisjoint` | bpftime/runtime/include/hpc/ubpf_shm_buffer.hpp:93-99 | two reservations in one block never overlap |
| `ShmBuffer.SafeFlip` | bpftime/runtime/src/hpc/ubpf_async_io_worker.cpp:171-175 | storing the flip of the active buffer keeps the invariant |
| `ShmBuffer.SafePublish` | bpftime/runtime/src/hpc/ubpf_async_io_worker.cpp:175 | so does its becoming visible to the probes |
| `ShmBuffer.SafeDrain` | bpftime/runtime/src/hpc/ubpf_async_io_worker.cpp:177-187 | the end of a drain wait keeps it |
| `ShmBuffer.SafeRecycle` | bpftime/runtime/src/hpc/ubpf_async_io_worker.cpp:225-226 | resetting a drained buffer keeps it |
| `ShmRuns.DrainedQuiet` | bpftime/runtime/src/hpc/ubpf_async_io_worker.cpp:177-193 | while the worker owns a block whose wait ended well no probe can store into it |
| `ShmRuns.FlushOk` | bpftime/runtime/src/hpc/ubpf_async_io_worker.cpp:189-223 | a flushed chunk starts with exactly its records, whole and in order |
| `ShmRuns.ReachableFaithful` | bpftime/runtime/src/hpc/ubpf_async_io_worker.cpp:157-227 | in every reachable state, unless some wait ended on an active probe or an unseen flip, every chunk is intact and every stamped record is in a chunk or pending, once |
| `ShmRuns.CountZeroQuiet` | bpftime/runtime/src/hpc/ubpf_async_io_worker.cpp:179 | a count of zero means that no probe is active on the block at that moment |
| `ShmRuns.CalmFaithful` | bpftime/runtime/src/hpc/ubpf_async_io_worker.cpp:157-227 | the same for every run whose waits all ended with the count at zero and the flip visible |
| `ShmDelivery.EncodedIsGood` | bpftime/runtime/src/hpc/ubpf_agent_manager.cpp:183-199 | what a call writes is a record that decodes to its event |
| `ShmDelivery.DisjointRegions` | bpftime/runtime/include/hpc/ubpf_shm_buffer.hpp:93-99 | two probes copying to one block at the same time write disjoint bytes, in every run whose waits ended well |
| `ShmDelivery.ProbeBounded` | bpftime/runtime/include/hpc/ubpf_shm_buffer.hpp:70-110 | a probe finishes within a fixed number of its own steps, whatever the others do |
| `ShmDelivery.CallBound` | bpftime/runtime/src/hpc/ubpf_agent_manager.cpp:176-204 | a call takes at most the record's length plus 15 steps |
| `ShmDelivery.ReachableAccounted` | bpftime/runtime/include/hpc/ubpf_shm_buffer.hpp:71-118 | every call is recorded, dropped, ignored because its rank is 256 or more, or still running |
| `ShmDelivery.ReachableCounts` | bpftime/runtime/src/hpc/ubpf_async_io_worker.cpp:201-217 | with every chunk, in every run, the calls begun by then are its recorded and dropped ones, the ignored ones and those under way, and no count exceeds the present one |
| `ShmDelivery.CalmTotals` | bpftime/runtime/src/hpc/ubpf_async_io_worker.cpp:201-207 | in runs whose waits ended well, the total that goes out with a chunk is the number of records flushed so far, less the calls among them not counted yet, plus the calls already counted in the other block |
| `ShmDelivery.ChunkDecodes` | tools/ubpftrace_cat.cpp:155-219 | an intact chunk decodes to the events of its records and then of what lies behind them: nothing if and only if it did not overflow or the length found there is zero, too long or does not fit |
| `ShmDelivery.NothingStaleIff` | tools/ubpftrace_cat.cpp:157-161 | no chunk of a list yields anything else if and only if that guard holds behind every one that overflowed |
| `ShmDelivery.ChunksInOrder` | tools/ubpftrace_cat.cpp:155-219 | events then come out in the order in which their space was claimed, chunk by chunk |
| `ShmClock.CalmHistory` | bpftime/runtime/src/hpc/ubpf_agent_manager.cpp:187-194 | in every run whose waits ended well: stamps never fall and rise exactly when the clock moved on, places are handed out behind those of all calls that were over, and each record lies in the file at the place it was given |
| `ShmOrder.StampEncodes` | bpftime/runtime/src/hpc/ubpf_agent_manager.cpp:188-194 | what a call copies is the record of its event with the clock reading for its timestamp |
| `ShmOrder.RecordsSortedIff` | bpftime/runtime/src/hpc/ubpf_agent_manager.cpp:187-194 | once settled, the recorded events in the file are in the order of their timestamps if and only if no call took its stamp after one with a later place did, the clock having moved on in between |
| `ShmOrder.FileSortedIff` | tools/ubpftrace_cat.cpp:155-219 | the decoded file is in that order if and only if, besides, what is decoded from behind overflowed chunks fits in, which holds where the decoder stops there |
| `ShmOrder.OvertakingOverlaps` | bpftime/runtime/src/hpc/ubpf_agent_manager.cpp:187-194 | a call that is overtaken had begun before the other took its stamp |
| `ShmOrder.SerialSorted` | bpftime/runtime/src/hpc/ubpf_agent_manager.cpp:176-204 | on every schedule on which no call begins while another is under way, the recorded events are in the order of their timestamps |
| `ShmDelivery.EveryEventDelivered` | bpftime/runtime/src/hpc/ubpf_async_io_worker.cpp:157-227 | for every run whose waits ended well, overflows included: once settled, the chunks decode to every recorded event exactly once plus what lies behind overflowed chunks, and to nothing more if and only if the guard holds there |
| `ShmHazards.DrainSafeIff` | bpftime/runtime/src/hpc/ubpf_async_io_worker.cpp:177-187 | when a wait ends, the block is left alone on every schedule if and only if no probe is active on it and the flip is visible (or there is no probe) |
| `ShmHazards.CountZeroSafeIff` | bpftime/runtime/src/hpc/ubpf_async_io_worker.cpp:175-179 | a wait that ends because the count is zero is safe on every schedule if and only if the flip is visible when the count is read |
| `ShmHazards.AloneEnds` | bpftime/runtime/include/hpc/ubpf_shm_buffer.hpp:73-110 | a call left to itself is recorded if its record fits into the block it finds; if the epoch changed under it, it starts over, but only once; else it is dropped |
| `ShmHazards.ReachableInStep` | bpftime/runtime/src/hpc/ubpf_async_io_worker.cpp:171-175 | whatever anybody has read of the epoch word, in every run, its block index is the parity of its epoch |
| `ShmHazards.WaitLasts` | bpftime/runtime/src/hpc/ubpf_async_io_worker.cpp:178-187 | while a writer is counted the wait goes on for exactly 500 polls and then gives up |
| `ShmHazards.IgnoredIff` | bpftime/runtime/include/hpc/ubpf_shm_buffer.hpp:71 | calls of ranks from 256 on are ignored, and only those |
| `ShmScenarios.TimeoutTearsRecord` | bpftime/runtime/src/hpc/ubpf_async_io_worker.cpp:178-187 | a run with every flip visible in time in which a timed out wait flushes a torn record |
| `ShmScenarios.TimeoutSharesSpace` | bpftime/runtime/src/hpc/ubpf_async_io_worker.cpp:178-226 | a run with every flip visible in time in which, after a timed out wait, two probes copy to the same bytes |
| `ShmScenarios.UnseenFlipTearsRecord` | bpftime/runtime/src/hpc/ubpf_async_io_worker.cpp:175-179 | a run without any timeout in which an unseen flip leads to a torn record |
| `ShmScenarios.AttainLogged` | bpftime/runtime/src/hpc/ubpf_agent_manager.cpp:183-202 | what an undisturbed call leaves behind: the stamped record in the block behind the earlier ones, and the counters |
| `ShmScenarios.AttainSwapped` | bpftime/runtime/src/hpc/ubpf_async_io_worker.cpp:157-227 | what an undisturbed flush leaves behind, forced or because there is something to flush: one chunk, an empty block, the other one active |
| `ShmScenarios.AwakeForNothing` | bpftime/runtime/src/hpc/ubpf_async_io_worker.cpp:167-169 | unforced and with nothing to flush, the worker changes nothing |
| `ShmExamples.StaleRecordAgain` | bpftime/runtime/src/hpc/ubpf_async_io_worker.cpp:189-193 | a run whose waits all end well and that decodes a recorded event twice |
| `ShmExamples.OverlapUnsorted` | bpftime/runtime/src/hpc/ubpf_agent_manager.cpp:187-194 | a run of two overlapping calls, stamped by the clock, whose file shows the later stamp first |
| `Container.ParseFile` | tools/ubpftrace_cat.cpp:82-223 | the file is refused, or decoded as specified, or derails the program: which of the three, exactly |
| `Container.ParseChunks` | tools/ubpftrace_cat.cpp:118-222 | the chunk loop lists every chunk, checks its checksum and decodes its events, unless a chunk or a payload runs past its end |
| `Container.BrokenIff` | tools/ubpftrace_cat.cpp:120-131 | a chunk runs past the end of the file if and only if going from header to header by the stored sizes reaches a place where the file is too short |
| `Container.ShortIsEmpty` | tools/ubpftrace_cat.cpp:106-118 | a file of fewer than 168 bytes has no chunks and is not broken, whatever it ends in |
| `Container.UnpackedIsPassedOver` | tools/ubpftrace_cat.cpp:136-155 | chunks that cannot be decompressed are listed and otherwise passed over |
| `Container.MagicsSpell` | bpftime/runtime/include/hpc/ubpf_container_writer.hpp:13-16 | the magic numbers spell what they stand for |
| `Container.DecodeChunk` | tools/ubpftrace_cat.cpp:136-219 | the events of one chunk after decompression |
| `ContainerWriter.ChunkBytesRead` | bpftime/runtime/src/hpc/ubpf_container_writer.cpp:115-148 | a chunk as written is read back field by field |
| `ContainerWriter.ReservedIsZero` | bpftime/runtime/include/hpc/ubpf_container_writer.hpp:45-57 | the reserved bytes of a chunk header are zero |
| `ContainerWriter.ListRoundTrip` | tools/ubpftrace_cat.cpp:118-222 | header, chunks and any tail are listed as exactly those chunks |
| `ContainerWriter.BurstIsReported` | tools/ubpftrace_cat.cpp:133-134 | a burst of at most 32 bits in a chunk's data marks that chunk as damaged |
| `ContainerFile.Writer.constructor` | bpftime/runtime/src/hpc/ubpf_container_writer.cpp:49-86 | an open file holds its header and nothing else |
| `ContainerFile.Writer.WriteChunk` | bpftime/runtime/src/hpc/ubpf_container_writer.cpp:88-156 | a chunk is appended, indexed at its final offset and counted; what is staged goes to disk once it reaches 2 MiB, and not before |
| `ContainerFile.Writer.Stage` | bpftime/runtime/src/hpc/ubpf_container_writer.cpp:128-156 | staging keeps file and buffer together the image of all chunks |
| `ContainerFile.Writer.Flush` | bpftime/runtime/src/hpc/ubpf_container_writer.cpp:158-180 | flushing moves the staged bytes and changes no content |
| `ContainerFile.Writer.Close` | bpftime/runtime/src/hpc/ubpf_container_writer.cpp:182-212 | closing appends index and trailer, giving the closed file; every index entry is that of its chunk at the chunk's place |
| `ContainerFile.TrailerRead` | bpftime/runtime/src/hpc/ubpf_container_writer.cpp:199-208 | the numbers of the trailer are read back |
| `ContainerFile.FileHeaderRead` | bpftime/runtime/src/hpc/ubpf_container_writer.cpp:60-73 | a written header is accepted and gives back version, job and node |
| `ContainerFile.ClosedFileLists` | tools/ubpftrace_cat.cpp:82-223 | a closed file lists exactly the chunks written, the index being skipped |
| `ContainerFile.MadeChunkCarries` | bpftime/runtime/src/hpc/ubpf_container_writer.cpp:99-126 | a chunk as it is written carries its raw bytes and a right checksum whenever decompression undoes compression |
| `ContainerFile.FileRoundTrip` | tools/ubpftrace_cat.cpp:82-223 | a closed file is never broken, and decoding it gives the events of all chunks, each chunk listed at its place with a valid checksum, if and only if no payload runs past its chunk |
| `ContainerIndex.IndexLeads` | bpftime/runtime/src/hpc/ubpf_container_writer.cpp:128-142 | in a closed file the index entry of each chunk, found through the trailer, is read back and leads to the header of that chunk |
| `ContainerFile.TruncatedBrokenIff` | tools/ubpftrace_cat.cpp:102-131 | a closed file cut anywhere behind its header is broken if and only if the chunk area it claims leaves room for a header behind its last whole chunk, and a chunk is cut there or no header is left; where the end does not look like a trailer, if and only if the header of some chunk is left but not all of its data |
| `ContainerFile.TruncatedBreaks` | tools/ubpftrace_cat.cpp:118-131 | a file of one chunk that reads, and the same file cut inside the data of that chunk, which breaks |
| `Pipeline.StoreNode` | bpftime/runtime/src/hpc/ubpf_async_io_worker.cpp:209-221 | a writer opened, fed any list of chunks, flushed after each and closed leaves a file that decodes to their events |
| `Pipeline.NodePipeline` | tools/ubpftrace_cat.cpp:82-223 | from probe calls through buffer, worker, writer, file and decoder every recorded event comes out exactly once, and nothing else if and only if the decoder stops behind every overflowed chunk |
| `Pipeline.LastTotal` | bpftime/runtime/src/hpc/ubpf_async_io_worker.cpp:201-207 | once a run whose waits ended well has settled, the total sent with the last chunk lacks exactly the calls that had stamped but not yet counted themselves |
| `Pipeline.TrailerExactIff` | bpftime/runtime/src/hpc/ubpf_async_io_worker.cpp:201-217 | in every such run the total in the trailer is the number recorded if and only if no chunk was written or the totals sent with the earlier chunks add up to what that of the last one lacks, by calls not counted yet and by being cut to 32 bits |
| `Pipeline.TrailerOvercounts` | bpftime/runtime/src/hpc/ubpf_container_writer.cpp:141-142 | a run of three recorded calls whose trailer says five |
| `Pipeline.TrailerUndercounts` | bpftime/runtime/include/hpc/ubpf_shm_buffer.hpp:113-118 | a run of one recorded call whose trailer says none |
| `Pipeline.TrailerMadeUp` | bpftime/runtime/src/hpc/ubpf_container_writer.cpp:141-142 | a run of three recorded calls in two chunks whose trailer is right, although the first chunk announced some |
| `Merge.InitialQueue` | tools/ubpftrace_cat.cpp:297-301 | the queue starts with the first event of each file that has one |
| `Merge.TopIndex` | tools/ubpftrace_cat.cpp:286-295 | the top of the queue is a least one |
| `Merge.MergeEvents` | tools/ubpftrace_cat.cpp:284-319 | the output is a permutation of all events, sorted if and only if every file is, reads each file in its own order and always takes a minimum among the heads |
| `Merge.MergeIsPermutation` | tools/ubpftrace_cat.cpp:303-318 | the output is a permutation of all events |
| `Merge.MergeSortedIff` | tools/ubpftrace_cat.cpp:303-318 | the output is sorted if and only if every file is |
| `LayoutScan.CommentAgreesIff` | src/parser.cpp:2669-2738 | consuming and scanning a block comment end at one place if and only if no closer is hidden behind stars or the scan ends with the text |
| `LayoutScan.PlainAgreesIff` | src/parser.cpp:2740-2808 | where no comment hides a closer, `scan_layout` ends where `consume_layout` stops if and only if that is not at an odd white space |
| `LayoutScan.LookaheadAgreesIff` | src/parser.cpp:2740-2808 | on every text the two end at one place if and only if, taken item by item, neither is stopped while behind the other; what stops them is stated by the three rows around this one |
| `LayoutScan.ScanIff` | src/parser.cpp:2779-2808 | `scan_layout` ends where white space and comments do: what it passes is nothing else, and none starts where it stops |
| `LayoutScan.HiddenAgreesIff` | src/parser.cpp:2669-2808 | at a comment that hides a closer they agree if and only if all between the hidden and the visible closer is layout to the lookahead and it meets the consuming scan from there |
| `LayoutScan.HiddenButAgrees` | src/parser.cpp:2721-2728 | an input with a hidden closer on which they agree |
| `LayoutScan.LookaheadCounterexample` | src/parser.cpp:2721-2728 | an input on which they differ |
| `Tokens.KeywordIsWord` | src/parser.cpp:2883-2903 | a keyword is found where, and only where, it is the whole run of letters, digits and underscores |
| `Tokens.KeywordAgrees` | src/parser.cpp:2883-2920 | `check_keyword` and `match` agree wherever the two scans meet, and on any text differ on a keyword if and only if it stands where one scan ends and not where the other does |
| `Tokens.KeywordsAgreeIff` | src/parser.cpp:2883-2920 | they agree on every keyword if and only if both scans end at the same word, if not at the same place |
| `Tokens.KeywordCounterexample` | src/parser.cpp:2883-2920 | a text and a keyword on which they differ |
| `Tokens.StringRoundTrip` | src/parser.cpp:2980-3082 | a string written with any mix of plain characters, named escapes, one to three octal and one or two small or large hexadecimal digits is read back without an error |
| `Tokens.StringReadsIff` | src/parser.cpp:2980-3082 | a literal is read without an error if and only if it spells a string in one of these ways |
| `Tokens.OctalTooLarge` | src/parser.cpp:3024-3051 | an octal escape above 255 is an error and loses its ninth bit |
| `Literals.NameCharacters` | src/parser.cpp:2815-2823 | the letters and digits of names, one by one |
| `Literals.NumberParses` | src/parser.cpp:2121-2330 | a number in digits is read as a literal if and only if it fits 64 bits |
| `Operators.PeekIsLongest` | src/parser.cpp:1794-1898 | a binary operator is seen if and only if its text is the longest there of all operators, compound assignments and steps, and is not the slash that closes a predicate |
| `Operators.PeekNothingIff` | src/parser.cpp:1794-1898 | and where no text of the table is, none is seen |
| `Operators.ChainParses` | src/parser.cpp:1755-1932 | operands between operators are read as the tree that divides at the last operator of the loosest group, by a table of operator texts in ten groups |
| `Operators.PairParses` | src/parser.cpp:1755-1932 | of two operators the first is done first unless the second is of a tighter group |
| `Precedence.TreeUnique` | src/parser.cpp:1901-1932 | no two well-nested trees have the same operands and operators |
| `Precedence.RunSplits` | src/parser.cpp:1907-1932 | what a tighter bound consumes, continued, is what the looser bound consumes |
| `Precedence.ClimbNests` | src/parser.cpp:1907-1932 | climbing reads exactly the operators no looser than its bound and nests them well |
| `Precedence.ClimbingIsUnique` | src/parser.cpp:1901-1932 | `parse_binary` returns the only well-nested tree over what it consumes, stops at the first operator below its bound, and fails exactly where an operand is missing |
| `RoundTrip.PrintMatches` | src/parser.cpp:1794-1898 | printed text shows the parser the tokens meant, layout, operators and operands |
| `RoundTrip.TernaryReads` | src/parser.cpp:1717-1751 | tokens of an expression are read back as that expression |
| `RoundTrip.BinaryReads` | src/parser.cpp:1901-1932 | the same for an operand of a binary operator, whatever loop it is read in |
| `RoundTrip.UnaryReads` | src/parser.cpp:1935-2011 | the same for prefix operators |
| `RoundTrip.ChainReads` | src/parser.cpp:2014-2117 | the same for postfix operators, literals and groups |
| `RoundTrip.PrintParse` | src/parser.cpp:1710-2117 | every correctly parenthesised way to write an expression parses to it, consuming all of the text |
| `Canonical.MinimalPrints` | src/parser.cpp:1755-1768 | parentheses only where precedence needs them are enough |
| `Canonical.ParsedWf` | src/parser.cpp:1710-2117 | every parsed expression has well-formed tokens |
| `Canonical.ParsableIffWf` | src/parser.cpp:1710-2117 | the parser produces exactly the well-formed expressions |
| `Canonical.Reformat` | src/parser.cpp:1710-2117 | printing a parsed expression and parsing it again gives the same expression |
| `ScriptParser.PlacedJump` | src/parser.cpp:2940-2947 | a jump over text without newline moves only the column |
| `ScriptParser.Parser.constructor` | src/parser.h:188-192 | a parser starts at line 1, column 1 |
| `ScriptParser.Parser.Advance` | src/parser.cpp:2608-2619 | moves up to the end and keeps line and column those of the position |
| `ScriptParser.Parser.Restore` | src/parser.h:160-182 | going back to a save point restores position, line and column |
| `ScriptParser.Parser.ConsumeLineComment` | src/parser.cpp:2653-2667 | stops at the end of the line |
| `ScriptParser.Parser.ConsumeBlockComment` | src/parser.cpp:2669-2738 | stops where the line by line specification does |
| `ScriptParser.Parser.ConsumeLayout` | src/parser.cpp:2740-2777 | stops where white space and comments end |
| `ScriptParser.Parser.Error` | src/parser.cpp:3227-3267 | reports once and leaves the position as it was |
| `ScriptParser.Parser.MatchChar` | src/parser.cpp:2873-2881 | consumes the character if it is next |
| `ScriptParser.Parser.MatchKeyword` | src/parser.cpp:2883-2903 | consumes the keyword if it is next and not part of a longer name |
| `ScriptParser.Parser.CheckKeyword` | src/parser.cpp:2905-2920 | the same test without moving |
| `ScriptParser.Parser.ConsumeIdentFrom` | src/parser.cpp:2940-2947 | jumps to the end of the name and keeps line and column |
| `ScriptParser.Parser.ConsumeIdentifier` | src/parser.cpp:2949-2959 | a name behind layout, or an error |
| `ScriptParser.Parser.ConsumeVariable` | src/parser.cpp:2961-2968 | a variable, or an error |
| `ScriptParser.Parser.ConsumeEscape` | src/parser.cpp:3005-3074 | one escape sequence, its value and errors |
| `ScriptParser.Parser.ConsumeString` | src/parser.cpp:2980-3082 | value, end and errors of a string literal |
| `ScriptParser.Parser.ParseTernary` | src/parser.cpp:1717-1751 | result and position are the grammar's, line and column those of the position |
| `ScriptParser.Parser.ParseBinary` | src/parser.cpp:1901-1905 | the same |
| `ScriptParser.Parser.ParseBinaryFrom` | src/parser.cpp:1907-1932 | the same, for the climbing loop with its save points |
| `ScriptParser.Parser.ParseUnary` | src/parser.cpp:1935-2011 | the same |
| `ScriptParser.Parser.ParsePostfix` | src/parser.cpp:2014-2117 | the same, for the postfix loop |
| `ScriptParser.Parser.ParseSuffix` | src/parser.cpp:2017-2113 | one turn of that loop |
| `ScriptParser.Parser.ParseAccess` | src/parser.cpp:2025-2071 | a dot or an arrow and the field behind it |
| `ScriptParser.Parser.ParsePrimary` | src/parser.cpp:2121-2330 | the same, for variables, literals and groups |
| `ScriptParser.Parser.ParseGroup` | src/parser.cpp:2481-2490 | the expression in parentheses |
| `Normalize.NormKeepsEffects` | src/parser.cpp:991-1014 | the rewrite changes no effect and no jump of an evaluation, in any world |
| `Normalize.NormFlattens` | src/parser.cpp:1000-1006 | afterwards no block among statements, values and branches has a value |
| `Normalize.NormTwice` | src/parser.cpp:991-1014 | a second application changes nothing |
| `NormalizeInPlace.Ast.NormalizeBlock` | src/parser.cpp:991-1014 | the nodes after the rewrite in place |
| `NormalizeInPlace.NormAtIs` | src/parser.cpp:991-1014 | exactly the nodes on the spine change, each once |
| `NormalizeInPlace.InPlaceIff` | src/parser.cpp:991-1014 | the rewrite in place is the pure one if and only if no changed block is shared with an operand, condition or other statement |
| `NormalizeInPlace.UnsharedKeepsEffects` | src/parser.cpp:991-1014 | then every effect and jump is kept |
| `NormalizeInPlace.ShortConditionalChanges` | src/parser.cpp:1733-1742 | a shared condition that loses its value, with the effects before and after |
| `TypeOrder.CompareChains` | src/types.cpp:199-262 | comparisons of three types fit together |
| `TypeOrder.TotalOrder` | src/types.cpp:199-262 | the comparison is reflexive, antisymmetric up to equality, transitive and total on all nested types |
| `TypeOrder.EqualCongruent` | src/types.cpp:189-197 | equal types compare alike with every other |
| `TypeKeys.RankIsPlace` | src/types.h:30-63 | the kinds are ranked in the order in which they are declared, by name |
| `TypeKeys.ComparesByKey` | src/types.cpp:199-262 | types compare as their keys, sequences of numbers, do in dictionary order: equal if and only if these are the same |
| `TypeLoops.CompareTypes` | src/types.cpp:199-262 | the comparison with its early returns |
| `TypeLoops.CompareRecords` | src/types.cpp:236-251 | the loop over names and types |
| `TypeLoops.CompareIntegers` | src/types.cpp:211-261 | enumerations by name and size, plain integers by size and sign |
| `TypeLoops.IsCompatible` | src/types.cpp:133-187 | compatibility, branch by branch, with the loop over tuple elements |
| `TypeLoops.CompatibleRecords` | src/types.cpp:158-173 | records by field name, in any order |
| `TypeLoops.Fits` | src/types.cpp:894-937 | fitting, branch by branch, with the loop over tuple elements |
| `TypeLoops.FittingRecords` | src/types.cpp:925-935 | fitting of records by field name |
| `TypeLoops.Promoted` | src/types.cpp:714-756 | promotion of elements, branch by branch, and of tuples |
| `TypeLoops.PromotedRecord` | src/types.cpp:758-775 | promotion of records in the order of the first |
| `TypeShapes.CompatibleIff` | src/types.cpp:133-187 | types without arrays of unknown size are compatible if and only if they have the same shape, which forgets sizes and signs and keeps kinds, structure names, stack parameters, tuple elements and record fields by name |
| `TypeShapes.UnknownArrayIff` | src/types.cpp:176-185 | an array of unknown size is compatible with exactly the arrays of the same elements |
| `TypeShapes.CompatibleBack` | src/types.cpp:133-187 | compatibility is symmetric, on all types |
| `TypeShapes.PromotesIff` | src/types.cpp:777-800 | there is a promoted type if and only if there is no first type yet, the shapes are the same, or an integer meets a map value that reads as one |
| `TypeShapes.NumbersPromote` | src/types.cpp:790-796 | such a map value promotes as the integer it reads as |
| `TypeShapes.MapValuesPromote` | src/types.cpp:705-712 | two map values of one kind promote to one of them, signed if either is |
| `TypeShapes.FirstPromotes` | src/types.cpp:780-785 | what comes first keeps its type, or is stored as a 64-bit integer |
| `TypeShapes.ByteArrayKinds` | src/types.cpp:264-270 | the kinds that are kept as raw bytes, by name |
| `TypeShapes.CastableKinds` | src/types.h:550-554 | the map values that read as numbers, by name |
| `TypeFit.EqualFits` | src/types.cpp:894-937 | equal types fit into each other |
| `TypeFit.FitsTransitive` | src/types.cpp:894-937 | fitting chains through a type without sign-flexible integers |
| `TypeFit.TransitiveThroughIff` | src/types.cpp:901-911 | it chains through a type if and only if that holds no sign-flexible integer |
| `TypeValues.FitsIff` | src/types.cpp:894-937 | a type fits into another if and only if every value of the one can be stored in the other: numbers by range, texts by length, tuples and records by their parts, the rest by being the same type |
| `Promotion.NamesakeBack` | src/types.cpp:158-173 | names of compatible records match in both directions |
| `Promotion.EqualPromotes` | src/types.cpp:714-775 | promoting equal types gives an equal type if and only if no enumeration is among the integers inside |
| `Promotion.PointerBounds` | src/types.cpp:729-738 | pointers fit into the promoted one if and only if they point to equal types without enumerations |
| `Promotion.PromotedBoundsIff` | src/types.cpp:660-775 | both types fit into the promoted one if and only if no leaves clash, in nested tuples, pointers and records with fields in any order |
| `Promotion.PromotionIsBoundIff` | src/types.cpp:777-800 | the same for the entry point, where equal types always fit |
| `TypeValues.PromotedIsLeast` | src/types.cpp:660-775 | without sign-flexible integers, whatever both types fit into the promoted one fits into as well |
| `IntegerJoin.JoinIsPromotion` | src/types.cpp:660-703 | for two integers of one kind, flexible or not, the entry point computes the join |
| `IntegerJoin.JoinIsLeast` | src/types.cpp:660-703 | the promoted integer is the least above both |
| `IntegerJoin.JoinCommutes` | src/types.cpp:660-703 | commutative and idempotent |
| `IntegerJoin.JoinAssociates` | src/types.cpp:660-703 | associative |
| `IntegerJoin.FoldIgnoresOrder` | src/types.cpp:660-703 | among integers of one kind any order and repetition of promotions gives one result |
| `IntegerJoin.PairCommutesIff` | src/types.cpp:660-703 | promoting two integers either way gives the same unless they agree in size and sign and only one is flexible |
| `IntegerJoin.MixedOrderMatters` | src/types.cpp:670-680 | three integers of both kinds whose promoted size depends on the order |
| `Layout.CreateRecord` | src/struct.cpp:63-101 | offsets, size, alignment and the padded flag of a record |
| `Layout.PaddingLeast` | src/struct.cpp:80-83 | padding leads to the least aligned offset |
| `Layout.FieldsApart` | src/struct.cpp:74-93 | fields keep their order, do not overlap and stay inside |
| `Layout.LayoutIsFair` | src/struct.cpp:74-93 | the layout is aligned and without overlap |
| `Layout.LayoutIsLeast` | src/struct.cpp:74-93 | no aligned placement in order puts any field earlier |
| `Layout.SizeIsLeast` | src/struct.cpp:95-98 | no such struct is smaller |
| `TypeLayout.AlignmentIsPower` | src/types.cpp:843-859 | every alignment is 1, 2, 4 or 8, except that it is 0 exactly for what has no bytes and is not a byte array, structure, tuple or record |
| `TypeLayout.PartAligned` | src/types.cpp:843-859 | every part of nested tuples and records is aligned at its absolute offset and inside the whole |
| `TypeLayout.ScalarAligned` | src/types.cpp:843-859 | from a base that is a multiple of 8, every value of 1, 2, 4 or 8 bytes, however deep inside, lies at a multiple of its own size |
| `TypeLayout.PointerAligned` | src/types.cpp:843-859 | pointers take eight bytes at multiples of eight |
| `TypeLayout.AlignmentIsLargest` | src/types.cpp:843-859 | the alignment of a tuple or record is the largest natural alignment of the values inside, byte arrays and structures counting as single bytes |
| `TypeLayout.ElementsAlignedIff` | src/types.cpp:843-859 | the elements of an aligned array are all aligned if and only if their size is a multiple of their alignment |
| `TypeLayout.PartsApart` | src/struct.cpp:63-101 | parts on diverging paths never overlap |
| `TypeLayout.EqualSize` | src/types.cpp:199-262 | equal types have one size and alignment |
| `Bitfield.ContainerExact` | src/struct.h:36-50 | shift and mask on the container give the absolute bits |
| `Bitfield.ContainerExactIff` | src/struct.h:36-50 | they do so in every structure if and only if the container reaches the last bit |
| `Bitfield.ProbeReadExact` | src/ast/passes/codegen_llvm.cpp:2718-2743 | so does reading only `read_bytes` bytes into a zeroed container |
| `Bitfield.ReadBytesMinimal` | src/struct.cpp:41-42 | `read_bytes` is the least number of bytes that reach the last bit |
| `Bitfield.PackThenExtract` | src/struct.cpp:14-48 | packing disjoint fields and reading any gives back what was packed |
| `BtfFields.Record.AddField` | src/struct.cpp:159-169 | the first field of a name is kept |
| `BtfFields.Record.ResolveFields` | src/btf.cpp:1261-1295 | the fields collected by the loop and its recursion into anonymous members |
| `BtfFields.ResolveIsFound` | src/btf.cpp:1261-1295 | they are the named members in order, at positions cut to whole bytes at each anonymous member |
| `BtfFields.PlacedRightIff` | src/btf.cpp:1261-1295 | these are the absolute bit positions if and only if every anonymous member that holds a named one starts at a whole byte |
| `BtfFields.ResolveIsPlaces` | src/btf.cpp:1261-1295 | then the fields are the named members in order, each at its absolute bit position |
| `BtfFields.FieldsAreFirst` | src/struct.cpp:159-169 | exactly the first member of each name is kept |
| `BtfFields.ReadByName` | src/btf.cpp:1249-1259 | reading a bitfield found by name gives the absolute bits of that member |
| `Histogram.BoundsIncrease` | src/types_format.cpp:345-374 | the printed bounds increase strictly |
| `Histogram.BucketsDisjoint` | src/types_format.cpp:402-428 | no value is in two buckets |
| `Histogram.BucketWidth` | src/types_format.cpp:345-374 | a bucket is one value wide or at most its lower bound divided by 2^k |
| `Histogram.CountedWhereItBelongs` | src/ast/passes/codegen_llvm.cpp:3798-3919 | the index computed by the generated code is the one bucket whose printed interval holds the value |
| `Histogram.InsideTable` | src/bpfmap.cpp:179-185 | values below 2^63 are counted inside the table, under bounds of at most 2^63 |
| `HistogramOutput.LeadingBit` | src/ast/passes/codegen_llvm.cpp:3892-3902 | the six comparisons find the leading bit |
| `HistogramOutput.Log2` | src/ast/passes/codegen_llvm.cpp:3855-3915 | the generated function computes the index |
| `HistogramOutput.PrintedIsBound` | src/types_format.cpp:356-374 | printed number times suffix is the bound |
| `HistogramOutput.SuffixIsLargest` | src/types_format.cpp:356-374 | the suffix is the largest that leaves a number of the usual size |
| `HistogramOutput.LabelFits` | src/types_format.cpp:356-374 | without 64-bit overflow and with an existing suffix |
| `HistogramOutput.Indices` | src/types_format.cpp:376-389 | first and last bucket seen, after narrowing counts to `int` |
| `HistogramOutput.NarrowIs` | src/types_format.cpp:381 | the narrowed count is the signed 32-bit number that agrees with the count in these bits |
| `HistogramOutput.BuildHistogram` | src/types_format.cpp:391-432 | the buckets shown, each with its label and count |
| `HistogramOutput.ShownIffNothingHidden` | src/types_format.cpp:376-432 | for every divisor the counts shown add up to all divided counts if and only if each count of at least the divisor lies between two that survive the narrowing |
| `HistogramOutput.HiddenBucket` | src/types_format.cpp:381-382 | a histogram with 2^31 values in one bucket that shows nothing |
| `HistogramOutput.TableCounts` | src/ast/passes/codegen_llvm.cpp:3798-3919 | each table entry is the number of samples in the interval printed for it |
| `HistogramOutput.EverySampleShown` | src/types_format.cpp:391-432 | fewer than 2^31 samples are all shown, each once |
| `StableSort.SortIsStable` | src/types_format.cpp:483-492 | sorting permutes, orders and keeps ties in order |
| `StableSort.StableSortUnique` | src/types_format.cpp:483-492 | a stable sort has one result, whatever the algorithm |
| `StableSort.PassComposes` | src/types_format.cpp:498-503 | a stable pass over a stably sorted list sorts by both |
| `SortKeys.PassesSort` | src/types_format.cpp:494-526 | the passes from last field to first are one stable sort by all fields in declared order |
| `SortKeys.Report.SortByFields` | src/types_format.cpp:498-526 | the loop over the fields |
| `SortKeys.Report.SortByKey` | src/types_format.cpp:494-545 | entries end up stably sorted, no entry behind one that comes after it: by the first field that differs, integers by number, texts by the first byte that differs |
| `SortKeys.BytesTotal` | src/util/opaque.cpp:23-31 | byte-wise comparison is a total order |
| `SortKeys.BytesIff` | src/util/opaque.cpp:23-31 | one byte string is not after another if and only if it is a beginning of it or has the smaller byte at the first place where they differ |
| `SortKeys.KeyIff` | src/types_format.cpp:494-545 | the comparison of the report is that order, for tuple, integer, string and other keys |
| `SortKeys.UnsignedOrderIff` | src/types_format.cpp:483-492 | signed comparison orders two unsigned keys rightly if and only if their top bits agree |
| `SortKeys.ReportUnsignedIff` | src/types_format.cpp:527-536 | a report sorted by an unsigned integer key is in numeric order if and only if the top bits of all keys agree |
| `SortKeys.ReportFieldsIff` | src/types_format.cpp:498-526 | a report sorted by several fields is in the order of their values, signed or unsigned as declared, if and only if no two keys first differ in an unsigned field whose top bit is set in one of them only |
| `SortKeys.LargeKeyFirst` | src/types_format.cpp:527-536 | two keys that come out in the wrong order |

## Left out

- Weak memory other than the worker's flip: all probes see the flip at the same moment, and everything else is seen at once; the worker's other stores are ordered behind the flip.
- ShmBuffer.InvStep: the live streamer that also reads a drained block is not modelled; the clock is read in one step before the first byte of a record is copied, where the code stores the eight bytes in front of the timestamp first.
- ShmRuns.ReachableFaithful: whether some wait ended badly is a flag of the model, not something the worker knows; `CalmFaithful` states the same in terms of the waits.
- ShmOrder.FileSortedIff: the clock stays below 2^64 nanoseconds.
- Container.ParseFile: LZ4 is a parameter that unpacks bytes, and print-outs and the sums made for them are not modelled; what the program shows after it has derailed is not stated.
- Container.DecodeChunk: a payload length beyond the buffer sets a fault flag, where the code reads on behind the buffer.
- Pipeline.NodePipeline: compression is taken to succeed within the bound LZ4 documents and to be undone by decompression.
- ContainerFile.Writer.WriteChunk: short writes and write errors, after which the staged bytes are dropped, are not modelled; nor are they in `Flush` and `Close`.
- ScriptParser.Parser.ParsePrimary: calls, maps, blocks, conditionals by keyword, casts, tuples, records, other bases and suffixes of integers and positional parameters count as failures, as do syntax errors, after which the code goes on.
- ScriptParser.Parser.ParseTernary: a missing colon counts as a failure, where the code reports it and goes on.
- ScriptParser.Parser.ParseUnary: taking an address and stepping a map entry count as failures.
- ScriptParser.Parser.ParsePostfix: stepping a map entry counts as a failure; the same holds in `ParseSuffix`.
- ScriptParser.Parser.ParseSuffix: access to a tuple element by number counts as a failure; the same holds in `ParseAccess`.
- ScriptParser.Parser.ParseGroup: casts and tuples, which also start with a parenthesis, count as failures.
- ScriptParser.Parser.ConsumeLayout: the comments and blank lines it records for the formatter are not modelled.
- RoundTrip.PrintParse: operators stand between single spaces; other layout is covered by the grammar's functions only.
- Normalize.NormKeepsEffects: a jump leaves the whole expression; loops that catch one, inside the expression, are not modelled.
- Promotion.PromotionIsBoundIff: integers have 1, 2, 4 or 8 bytes.
- Layout.CreateRecord: a field of alignment zero, on which the code divides by zero, is excluded.
- TypeLayout.PartAligned: an array is one part; its elements are covered by `ElementsAlignedIff`.
- Bitfield.ContainerExact: little-endian only.
- BtfFields.ResolveIsFound: missing type information is not modelled.
- SortKeys.Report.SortByKey: keys are taken to be as long as their fields reach; the code throws otherwise. Integer keys of other sizes than 1, 2, 4 and 8 bytes, on which the code reports an internal error, are left as they are.
- HistogramOutput.BuildHistogram: a divisor of zero is excluded. Linear histograms, where the bucket is one division, are not modelled.
- Attaching, loading, symbolisation, command lines, live dashboards and the remaining passes are not modelled: they rest on the kernel, LLVM and other foreign code.
