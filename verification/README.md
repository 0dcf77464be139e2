# Verified model of the archive contenders

The contenders build a STORED ZIP64 archive on S3 out of many objects, and must obey one hard rule: no
part of a multipart upload but the last may be smaller than 5 MiB. From file sizes alone they plan which
bytes are streamed and which are copied server-side. This project models three of these planners with
what executes their plans, and proves that the finished upload is, byte for byte, the archive a
sequential writer would produce: `[header][body]` of every file, the central directory, the end records.

| module | models |
|---|---|
| `Arithmetic`, `Bytes`, `Sorting` | saturating subtraction, little-endian fields, byte strings, stable sorting |
| `Canonical`, `ZipReader` | the sequential archive, and a reader written from APPNOTE.TXT (sections 4.3.7, 4.3.12, 4.3.14 to 4.3.16, 4.4.3 to 4.4.5, 4.5.3) and from no writer; it refuses what it cannot open: encrypted or compressed entries, data descriptors, versions above 4.5, several disks |
| `Multipart` | S3: numbered parts, replaced by retries, and the floor |
| `FigmentFormat`, `SinglePlan`, `SingleArchive` | figment-engine: records; the planner that alternates streams and copies, steals prefixes and folds; what its parts mean |
| `ChainPlan`, `ChainArchive`, `ChainRun`, `ChainStitch`, `FigmentPlanned` | figment-engine-chain: the planner; what the links build; one link upload after another against a store; all segments, CRC arrivals and stitch copies interleaved; which listings of either planner read back |
| `JrodonFormat`, `JrodonArchive`, `JrodonLimit`, `JrodonPlanned` | jrodon-v3: records with predicted sizes; the archive and its reader; a listing exactly at a limit; large files in planned archives |
| `JrodonLayout`, `JrodonSparing`, `JrodonBuilder`, `JrodonJobs` | the four-pass layout over a deque; how few files each part is given; the offset-tracking builder (a class); the jobs |
| `JrodonExec`, `JrodonRun`, `JrodonMemory`, `FanOut` | carving a shared buffer, headers arriving in any order, delegation; the memory semaphore; round-robin batches |
| `Crc32` (with `Iteration`, `Summation`), `CrcRemainder` | slicing by 8 against the bit-serial register; that register against long division, and the check value |
| `SlabRing`, `SlabWait`, `ObjectReader`, `MultipartSink`, `SlabPool`, `RateGovernor`, `RateLaws` | the slab ring and when its writer waits for ever, the prefetching reader (a class), the multipart sink (a class), the slab hand-over of the Python archiver, the token governor and what its steps do to rate and tokens |

How it is stated:

- A file's content travels with its listing record so that bytes can be compared, but every planner reads only ids, names and sizes.
- Code that loops or updates fields is a method or a class, proved equal to a function; what the source promises is proved about that function for all inputs. Protocols are state machines, and their theorems hold for every sequence of steps. Each atomic load, swap or exchange is one step.
- Casts to a field's width truncate, as in the source. Sizes are unbounded otherwise.
- Where a promise fails, a lemma shows a failing family and an if-and-only-if gives the exact condition.

What turned out not to hold of the code, with its exact condition:

- A figment listing with two files of exactly 0xFFFFFFFF bytes is written so that no reader recovers it; with at most one, and all values fitting, every listing is recovered: `FigmentPlanned.SingleReadsBack`, `FigmentPlanned.ChainReadsBack`. The record form of jrodon-v3 has such a gap too, for a file over 4 GiB that starts at exactly 0xFFFFFFFF (`JrodonFormat.CdfhRoundTrip`), but its planner never writes it: `JrodonPlanned.PlannedRecoverable`.
- A body of 4 GiB or more has its size cut in figment's local header: `FigmentFormat.BodyRoundTrip`.
- jrodon-v3 writes ZIP64 end records only above the limits. Exactly at a limit (65535 entries, or a directory size or offset of 0xFFFFFFFF) a last file name that ends like a ZIP64 locator sends a reader astray: `JrodonArchive.EndRoundTrip` has the condition, `JrodonLimit.FullListingIsMisread` the file list.
- jrodon-v3 merges an upload into a preceding upload, so that all trailing singles become one part. When that part is over 50 MiB the memory semaphore never admits it: `JrodonMemory.MemoryTheorem`. The layout's own comments speak of one part per single; the code merges them.
- The reader's two-neighbour probes are not complete on every set (`ObjectReader.PositionProbeTheorem`, `ObjectReader.RangeProbeTheorem`), but the reader never holds a set on which they miss: `ObjectReader.S3ObjectReader.ProbesNeverMiss`.
- Bytes written into a ring slab that a flush has sealed short of full are never sent: `SlabRing.DeliveryTheorem`. A flush that finds its slab exactly full loses no byte, but when a later write leaves a flushed slab whose lease has been dropped, the second seal makes it ready for ever; a writer that has left so every slab but one waits for ever: `SlabWait.StarvationTheorem`.
- The governor's budget of 4000 plus 3200 per millisecond holds for one caller only. With more, a caller that is overtaken between reading the clock and its swap breaks it, even on a clock that never runs backwards: `RateGovernor.PlainBudgetTheorem`; for n callers it is n times the rate: `RateGovernor.CallersTheorem`.
- `tell` counts too much after a short last part: `MultipartSink.Sink.Tell`.

## Model

| member | source | states |
|---|---|---|
| Multipart.AnyOrderCompletes | contenders/rust/figment-engine/src/aws/assemble.rs:110-288 | parts finished in any order and retried any number of times complete, once sorted by number, to their concatenation in plan order; the upload is refused exactly when a part other than the last is below 5 MiB |
| FigmentFormat.CentralRoundTrip | contenders/rust/figment-engine/src/engine/zip_format.rs:139-179 | a reader written from sections 4.3.12, 4.4.3 to 4.4.5 and 4.5.3 of APPNOTE.TXT, which refuses encryption, compression, a data descriptor and versions above 4.5, gets a directory record back if and only if its values fit and an all-ones size does not meet a ZIP64 block that holds only the offset |
| FigmentFormat.AllOnesSizeIsLost | contenders/rust/figment-engine/src/engine/zip_format.rs:139-179 | the failing family of the previous row: size 0xFFFFFFFF behind an offset above 4 GiB never reads back |
| FigmentFormat.EndRoundTrip | contenders/rust/figment-engine/src/engine/zip_format.rs:201-284 | the ZIP64 end record, locator and classic end record, whose record size, version, disk numbers and both counts the reader checks, lead it to the directory for every count, size and offset up to 64 bits |
| FigmentFormat.ListingRoundTrip | contenders/rust/figment-engine/src/engine/zip_format.rs:139-284 | starting from the last 22 bytes of any archive, a reader recovers every name, size, CRC and header offset if and only if every entry is recoverable |
| FigmentFormat.BodyRoundTrip | contenders/rust/figment-engine/src/engine/zip_format.rs:62-99 | a reader that compares the local header with the directory, flags, version, checksum and both sizes included, gets a listed entry its own body if and only if the body is below 4 GiB; a larger size is cut in the local header |
| FigmentFormat.CentralDirEntryLength | contenders/rust/figment-engine/src/engine/zip_format.rs:183-196 | the length function predicts a record it never builds, on both sides of the ZIP64 switch |
| SinglePlan.PlanSingleMpu | contenders/rust/figment-engine/src/engine/plan.rs:116-305 | the imperative planner returns the specified plan for a viable listing and the fallback for any other |
| SinglePlan.FillBatch | contenders/rust/figment-engine/src/engine/plan.rs:170-191 | the inner loop leaves the batch bytes, the order and the iterator in step, draws exactly the smalls its three exits allow, and no small too many: no shorter batch but the empty one already clears the floor or leaves a gap that a steal can bridge |
| SinglePlan.EmitParts | contenders/rust/figment-engine/src/engine/plan.rs:146-240 | the loop over the bigs with its steal, copy and fold branches computes the specified parts, order and counters |
| SinglePlan.LoopPlaces | contenders/rust/figment-engine/src/engine/plan.rs:159-240 | whatever mixture of batches, stolen prefixes, ranged copies and folds is emitted, the parts stand for the bytes of the order, which holds every big and the drawn smalls once |
| SinglePlan.LoopSound | contenders/rust/figment-engine/src/engine/plan.rs:159-254 | every emitted part meets the floor and the cost rules, and each big is copied by one part or folded into one |
| SingleArchive.OrderTheorem | contenders/rust/figment-engine/src/engine/plan.rs:117-128 | the planned order is a rearrangement of the listing, in which the bigs stand largest first and the smalls smallest first |
| SingleArchive.TiesTheorem | contenders/rust/figment-engine/src/engine/plan.rs:126-127 | that is: bigs with the larger body first, smalls with the smaller, and equal bodies by ascending id |
| SingleArchive.OffsetsTheorem | contenders/rust/figment-engine/src/engine/plan.rs:315-325 | the scan of lengths gives the offset where each local header stands in the canonical archive |
| SingleArchive.EntriesTheorem | contenders/rust/figment-engine/src/engine/plan.rs:257-275 | each entry of the plan carries its file, its size and the offset where its header really lands |
| SingleArchive.BytesTheorem | contenders/rust/figment-engine/src/engine/plan.rs:116-325 | in part-number order, streams, stolen prefixes, ranged copies, folds and the directory part concatenate to exactly what a sequential writer would produce |
| SingleArchive.FloorTheorem | contenders/rust/figment-engine/src/engine/plan.rs:159-254 | every part but the last, the remainder of a stolen big included, is at least 5 MiB |
| SingleArchive.UploadTheorem | contenders/rust/figment-engine/src/aws/assemble.rs:110-288 | the upload of the planned parts is never refused, and completes to the canonical archive |
| SingleArchive.CostTheorem | contenders/rust/figment-engine/src/engine/plan.rs:159-240 | a part with a stolen prefix is exactly 5 MiB; a big is folded only when its surplus cannot bridge the gap; folds and steals without a small in their part come only once no small is left |
| SingleArchive.SparingTheorem | contenders/rust/figment-engine/src/engine/plan.rs:159-240 | in a planned part that chaperones a big, the smalls before the last one it streams, with the header of the big and all it can spare above 5 MiB, stay below 5 MiB: without that small the big could not have been copied |
| SingleArchive.RoutingTheorem | contenders/rust/figment-engine/src/engine/plan.rs:116-125 | a listing is planned as one upload if and only if some file is at least 5 MiB and all bodies together are at least 20 MiB |
| SingleArchive.NumberingTheorem | contenders/rust/figment-engine/src/engine/plan.rs:204-254 | parts are numbered 1 to n and the directory is the last segment of the last part and of no other |
| SingleArchive.CountTheorem | contenders/rust/figment-engine/src/engine/plan.rs:283-296 | copied and folded bigs add up to the bigs, and the statistics count the copies, the stolen prefixes and the streams that are there |
| SingleArchive.StreamedFlagTheorem | contenders/rust/figment-engine/src/engine/plan.rs:260-281 | an entry is marked streamed, and left out of the copyable list, exactly when no part copies it |
| SingleArchive.DirectoryTheorem | contenders/rust/figment-engine/src/aws/assemble.rs:337-359 | the directory built from the plan closes the region of the planned order to the canonical archive |
| SingleArchive.BuildCentralDirectory | contenders/rust/figment-engine/src/aws/assemble.rs:337-359 | the two loops write one record per ordered entry at its planned offset, then the end records |
| SingleArchive.BuildStreamPartBytes | contenders/rust/figment-engine/src/aws/assemble.rs:289-335 | appending headers, bodies, prefixes and the directory yields the bytes the segments stand for |
| SingleArchive.BuildPart | contenders/rust/figment-engine/src/aws/assemble.rs:110-288 | for every part of every plan, the assembler finds all it needs in the plan and uploads under number k + 1 exactly the bytes the plan gave that part |
| SingleArchive.RoundTripTheorem | contenders/rust/figment-engine/src/engine/plan.rs:116-325 | the finished upload reads back as every file of the plan, with its body, if and only if every entry is recoverable |
| FigmentPlanned.SingleReadsBack | contenders/rust/figment-engine/src/engine/plan.rs:116-325 | the listing and every body of the single plan are read back if and only if names, checksums and sizes fit their fields and at most one listed file has a size of exactly 0xFFFFFFFF: the planner puts the only one first or behind one small |
| FigmentPlanned.TwoFullAreLost | contenders/rust/figment-engine/src/engine/zip_format.rs:139-179 | the failing listing: two files of exactly 0xFFFFFFFF bytes are planned, and their archive does not read back |
| Crc32.MakeTables | contenders/swift/sebsto-soto/Sources/SwiftSebstoSoto/Zip/CRC32.swift:25-44 | entry n of table k is n clocked through k + 1 bytes by the bit-serial register |
| Crc32.ClockByte | contenders/swift/sebsto-soto/Sources/SwiftSebstoSoto/Zip/CRC32.swift:35-42 | one look-up of the low byte, folded into the shifted rest, is eight bit steps; this is the linearity of the polynomial |
| Crc32.AbsorbSplits | contenders/swift/sebsto-soto/Sources/SwiftSebstoSoto/Zip/CRC32.swift:49-115 | the register after a message is the old register clocked over the message length, exclusive-or the contribution of the message alone |
| Crc32.SliceAbsorbs | contenders/swift/sebsto-soto/Sources/SwiftSebstoSoto/Zip/CRC32.swift:74-98 | eight look-ups in eight tables feed eight message bytes through the bit-serial register |
| Crc32.AbsorbWithTables | contenders/swift/sebsto-soto/Sources/SwiftSebstoSoto/Zip/CRC32.swift:74-104 | the block loop and the remainder loop compute the bit-serial register for every length |
| Crc32.UpdateChecksum | contenders/swift/sebsto-soto/Sources/SwiftSebstoSoto/Zip/CRC32.swift:49-115 | with both inversions the result continues the checksum as section 4.4.7 of APPNOTE.TXT defines it |
| Crc32.ChecksumContinues | contenders/swift/sebsto-soto/Sources/SwiftSebstoSoto/Zip/CRC32.swift:5-18 | for every split, the checksum of a updated with b is the checksum of a followed by b |
| CrcRemainder.RemainderTheorem | contenders/swift/sebsto-soto/Sources/SwiftSebstoSoto/Zip/CRC32.swift:25-115 | the checksum, mirrored and complemented, is the remainder of the message, most significant bit first, with its first 32 bits complemented and 32 zeros behind it, on long division by x^32 + 0x04C11DB7 |
| CrcRemainder.CheckValue | contenders/swift/sebsto-soto/Sources/SwiftSebstoSoto/Zip/CRC32.swift:25-115 | the checksum of the nine ASCII digits 123456789 is 0xCBF43926 |
| Crc32.Digest.Update | contenders/swift/sebsto-soto/Sources/SwiftSebstoSoto/Zip/CRC32.swift:5-18 | the value kept by the writer is, after any series of updates, the checksum of everything seen |
| ChainPlan.PlanSegmentChain | contenders/rust/figment-engine-chain/src/plan_chain.rs:139-307 | the planner computes the specified plan, and fails exactly when no file reaches the floor |
| ChainPlan.NoBigsTheorem | contenders/rust/figment-engine-chain/src/plan_chain.rs:139-160 | planning fails if and only if every file is below the floor |
| ChainPlan.OrderTheorem | contenders/rust/figment-engine-chain/src/plan_chain.rs:161-256 | the archive order names every file exactly once |
| ChainPlan.BucketMember | contenders/rust/figment-engine-chain/src/plan_chain.rs:161-182 | small number i stands in bucket i mod n, at place i / n behind the big |
| ChainPlan.BucketsAscend | contenders/rust/figment-engine-chain/src/plan_chain.rs:151-176 | the smalls are dealt in the order of their ids, so that they ascend in every bucket of a listing |
| ChainPlan.BucketSize | contenders/rust/figment-engine-chain/src/plan_chain.rs:161-182 | the size of every bucket under round robin |
| ChainPlan.BucketsBalanced | contenders/rust/figment-engine-chain/src/plan_chain.rs:161-182 | bucket sizes differ by at most one |
| ChainPlan.LinkTheorem | contenders/rust/figment-engine-chain/src/plan_chain.rs:183-256 | the number of links is 2S + B, and one more exactly when B >= 2 and S < B |
| ChainPlan.DepthTheorem | contenders/rust/figment-engine-chain/src/plan_chain.rs:183-256 | the depth counted is the length of the longest chain, and grows only with the ratio of smalls to bigs |
| ChainPlan.StatsTheorem | contenders/rust/figment-engine-chain/src/plan_chain.rs:139-307 | entries, segments, bigs and smalls are those of the listing: one segment for every file of at least 5 MiB |
| ChainPlan.ChainSegments | contenders/rust/figment-engine-chain/src/plan_chain.rs:183-256 | the loop over the buckets builds the specified links, lengths, order, offset, link count and depth |
| ChainArchive.SegmentObject | contenders/rust/figment-engine-chain/src/plan_chain.rs:183-256 | the links of a segment build the big, with its header only in the first segment, followed by the pieces |
| ChainArchive.ObjectsTile | contenders/rust/figment-engine-chain/src/plan_chain.rs:183-288 | the first k objects are the region of the first k buckets and the header that rides ahead for the next big |
| ChainArchive.StitchTheorem | contenders/rust/figment-engine-chain/src/plan_chain.rs:183-288 | stitched in index order the segment objects are exactly the canonical body region |
| ChainArchive.ObjectLength | contenders/rust/figment-engine-chain/src/plan_chain.rs:183-256 | the planned object length is the length of the object the links build |
| ChainArchive.TilingTheorem | contenders/rust/figment-engine-chain/src/plan_chain.rs:257-288 | the planned lengths add up to the directory offset, which is the length of the region |
| ChainRun.LinkStep | contenders/rust/figment-engine-chain/src/assemble_chain.rs:561-696 | every link upload succeeds on the object its predecessor left, no part of it below the floor, and leaves the object one link longer |
| ChainRun.LinksChained | contenders/rust/figment-engine-chain/src/plan_chain.rs:183-256 | planned segments start from a source of at least the floor, so that a forward link always has an object to copy |
| ChainRun.ObjectReachesFloor | contenders/rust/figment-engine-chain/src/assemble_chain.rs:500-551 | every object a later link copies forward is at least 5 MiB |
| ChainRun.S3.BuildOneLink | contenders/rust/figment-engine-chain/src/assemble_chain.rs:561-696 | creates, uploads and completes one link, and writes its output key or nothing |
| ChainRun.S3.BuildSegmentObject | contenders/rust/figment-engine-chain/src/assemble_chain.rs:500-551 | the loop over the links ends with the whole segment object under its key, and touches no key of another segment |
| ChainStitch.RunSafe | contenders/rust/figment-engine-chain/src/assemble_chain.rs:238-490 | for every interleaving of CRC arrivals, link builds, stitch copies and retries nothing fails, and each part copied, under the key and the number that the index of its segment gives, is the whole object of the segment at that position |
| ChainStitch.SafetyTheorem | contenders/rust/figment-engine-chain/src/assemble_chain.rs:238-490 | the same for the segments of every plan whose names fit their length field |
| ChainStitch.LinkCompletes | contenders/rust/figment-engine-chain/src/assemble_chain.rs:500-696 | once its CRCs have arrived, a segment completes one more link at each of its turns |
| ChainStitch.CopyCompletes | contenders/rust/figment-engine-chain/src/assemble_chain.rs:347-420 | a finished segment is copied into the stitch upload under its positional number |
| ChainStitch.AllGatesOpen | contenders/rust/figment-engine-chain/src/assemble_chain.rs:66-95 | when the stream of CRCs over the order has ended no segment waits any more, the look-ahead to the next big included |
| ChainStitch.StitchCompletes | contenders/rust/figment-engine-chain/src/assemble_chain.rs:330-475 | every stitch part clears the floor, and the finished parts complete to the objects in index order and the directory, in whatever order they finished |
| ChainStitch.EntriesTheorem | contenders/rust/figment-engine-chain/src/plan_chain.rs:260-322 | each entry carries the offset where its header lands, although the header of an interior big stands in the previous object |
| ChainStitch.BuildCentralDirectory | contenders/rust/figment-engine-chain/src/assemble_chain.rs:736-765 | records in plan order at the planned offsets, or an error for a missing CRC |
| ChainStitch.DirectorySizeTheorem | contenders/rust/figment-engine-chain/src/plan_chain.rs:260-279 | the predicted directory size is the size of the directory written later |
| ChainStitch.ArchiveTheorem | contenders/rust/figment-engine-chain/src/assemble_chain.rs:238-490 | every run that has received all CRCs and copied all segments finishes with the canonical archive |
| ChainStitch.CompletionTheorem | contenders/rust/figment-engine-chain/src/assemble_chain.rs:238-490 | whatever has happened so far, every run of a plan can be continued to one that finishes with the canonical archive |
| ChainStitch.RoundTripTheorem | contenders/rust/figment-engine-chain/src/plan_chain.rs:139-322 | that archive reads back as every file of the plan, with its body, if and only if every entry is recoverable |
| FigmentPlanned.ChainReadsBack | contenders/rust/figment-engine-chain/src/plan_chain.rs:139-322 | the same condition on the listing as for the single plan, exactly: the chain starts with the largest file |
| JrodonFormat.LocLength | contenders/rust/jrodon-v3/src/zip_format.rs:127-214 | a dumped local header has its predicted size, with and without a ZIP64 block |
| JrodonFormat.CdfhLength | contenders/rust/jrodon-v3/src/zip_format.rs:249-341 | a dumped directory header has its predicted size in all three forms |
| JrodonFormat.EndLength | contenders/rust/jrodon-v3/src/zip_format.rs:370-497 | the end records have their predicted size |
| JrodonFormat.Signatures | contenders/rust/jrodon-v3/src/zip_format.rs:38-47 | the big-endian signatures are the bytes APPNOTE.TXT asks for |
| JrodonFormat.CdfhRoundTrip | contenders/rust/jrodon-v3/src/zip_format.rs:259-341 | a directory header reads back, by the same reader, if and only if its values fit and a file over 4 GiB does not start at 0xFFFFFFFF |
| JrodonFormat.AllOnesOffsetIsLost | contenders/rust/jrodon-v3/src/zip_format.rs:259-341 | the failing family of the previous row |
| JrodonArchive.EndRoundTrip | contenders/rust/jrodon-v3/src/zip_format.rs:370-497 | the end records lead to the directory for every listing but those that lead a reader astray: end facts exactly at a classic limit, a last directory record that ends like a ZIP64 locator, and a ZIP64 record where that points; then the reader is led to that record |
| JrodonArchive.NameDecides | contenders/rust/jrodon-v3/src/zip_format.rs:259-341 | at a limit the last record has no ZIP64 block, so that the last 20 bytes of a name of that length alone decide |
| JrodonLimit.FullListingIsMisread | contenders/rust/jrodon-v3/src/zip_format.rs:370-380 | the failing input: 65535 files as a listing can hold them, with non-empty distinct ASCII names in key order, distinct keys and their own checksums, all entries recoverable; no ZIP64 records are written and the archive reads as empty |
| JrodonLimit.PlannedFullListingIsMisread | contenders/rust/jrodon-v3/src/zip_layout.rs:39-266 | from that listing the planner writes just that archive |
| JrodonArchive.ListingRoundTrip | contenders/rust/jrodon-v3/src/zip_format.rs:161-497 | for every listing that does not lead astray, exposed ones included, a reader recovers the listing from the end records if and only if every entry is recoverable |
| JrodonArchive.BodyRoundTrip | contenders/rust/jrodon-v3/src/zip_format.rs:161-214 | a reader that compares the local header, its ZIP64 block included, with the directory gets each listed entry its own body, exactly when the size fits 64 bits |
| JrodonLayout.FromFilesInfo | contenders/rust/jrodon-v3/src/zip_layout.rs:39-196 | the four imperative passes over the deque compute the specified layout and end |
| JrodonLayout.PermutationTheorem | contenders/rust/jrodon-v3/src/zip_layout.rs:39-196 | no file is lost or doubled by any pass |
| JrodonLayout.FloorTheorem | contenders/rust/jrodon-v3/src/zip_layout.rs:39-196 | both halves of every duo are at least 5 MiB; a partial copy that is left starts behind byte 0 and its upload half is exactly 5 MiB |
| JrodonLayout.PartialTheorem | contenders/rust/jrodon-v3/src/zip_layout.rs:126-196 | a partial copy is left only when promotion used up every file, so that passes 3 and 4 change nothing |
| JrodonLayout.PaddingTheorem | contenders/rust/jrodon-v3/src/zip_layout.rs:161-196 | files are left for singles only when every duo has reached 10 MiB, and only the last single falls short of it |
| JrodonLayout.PairingTheorem | contenders/rust/jrodon-v3/src/zip_layout.rs:39-118 | after pass 1 only files below 5 MiB are left, so that later passes never download a big file |
| JrodonSparing.Pass1Theorem | contenders/rust/jrodon-v3/src/zip_layout.rs:39-118 | pass 1 takes the bigs from the back, largest first, and its fillers from the front, smallest first; a duo has no more fillers than both halves need to reach 5 MiB, and a big becomes a single only when all that were left did not suffice |
| JrodonSparing.PromotionTheorem | contenders/rust/jrodon-v3/src/zip_layout.rs:126-155 | promotion adds the files at the front of the deque to a duo, in order, and only while it would otherwise download a prefix of its big |
| JrodonSparing.PadsSparingly | contenders/rust/jrodon-v3/src/zip_layout.rs:161-180 | padding does so only while the upload half of a duo is below 10 MiB |
| JrodonSparing.RemainderTheorem | contenders/rust/jrodon-v3/src/zip_layout.rs:182-196 | what is left follows in the order of the deque |
| JrodonSparing.LeanTheorem | contenders/rust/jrodon-v3/src/zip_layout.rs:39-196 | in the finished layout no upload part has a file more than it needs: without its last file it is below 10 MiB, and a part that holds a file of 5 MiB or more, which is then not copied, is below 10 MiB as a whole |
| JrodonBuilder.PartJobsBuilder.AddFiles | contenders/rust/jrodon-v3/src/part_executor/part_builder.rs:53-100 | registers each file at the running offset, and joins the elements to the last part when it is an upload |
| JrodonBuilder.PartJobsBuilder.InternalCopyFile | contenders/rust/jrodon-v3/src/part_executor/part_builder.rs:119-190 | puts header and downloaded prefix into the upload in front, and the rest into a copy part |
| JrodonBuilder.PartJobsBuilder.Finalize | contenders/rust/jrodon-v3/src/part_executor/part_builder.rs:198-250 | appends the directory element with its predicted size and the end facts |
| JrodonBuilder.ConvertLayout | contenders/rust/jrodon-v3/src/zip_layout.rs:245-266 | converting a layout calls the builder so that it never meets a copy without an upload in front |
| JrodonBuilder.BuiltHolds | contenders/rust/jrodon-v3/src/part_executor/part_builder.rs:53-190 | after every layout part the jobs spell the canonical region of its files, and the offset is its length |
| JrodonJobs.JobsTheorem | contenders/rust/jrodon-v3/src/part_executor/part_builder.rs:53-250 | jobs are numbered 1 to n, alternate from upload to upload, have the announced sizes, clear the floor but for the last, and concatenate to the canonical archive |
| JrodonJobs.OffsetTheorem | contenders/rust/jrodon-v3/src/part_executor/part_builder.rs:20-190 | the running offset is the sum of the part sizes so far |
| JrodonJobs.DirectoryPredicted | contenders/rust/jrodon-v3/src/part_executor/part_builder.rs:198-250 | record count, directory size, offsets and the size of the last element are those of the directory written later |
| JrodonJobs.SoundSplits | contenders/rust/jrodon-v3/src/zip_layout.rs:245-266 | no conversion subtracts past zero on a planned layout |
| JrodonExec.Carve | contenders/rust/jrodon-v3/src/part_executor/mod.rs:294-308 | the loop splits one slice of exactly its size off for each element and leaves nothing |
| JrodonRun.CarveTheorem | contenders/rust/jrodon-v3/src/shared_buffer.rs:72-106 | slices are disjoint, adjacent, cover the buffer, and are as long as what their element writes |
| JrodonExec.BufferTheorem | contenders/rust/jrodon-v3/src/part_executor/mod.rs:294-322 | for every interleaving of the tasks' writes, when all are done the buffer is the contents in order |
| JrodonRun.PartTheorem | contenders/rust/jrodon-v3/src/part_executor/mod.rs:247-335 | an upload part filled concurrently holds the bytes the plan gave it |
| JrodonExec.CollectHeaders | contenders/rust/jrodon-v3/src/part_executor/mod.rs:612-650 | the receive loop collects into the ordered map and stops at the record count |
| JrodonExec.ArrivalTheorem | contenders/rust/jrodon-v3/src/part_executor/mod.rs:612-650 | every arrival order of the headers gives the same list, the one in layout order |
| JrodonExec.OffsetsGrow | contenders/rust/jrodon-v3/src/part_executor/mod.rs:612-650 | offsets are distinct and grow with the layout, so that no header replaces another in the map |
| JrodonExec.WriteDirectory | contenders/rust/jrodon-v3/src/part_executor/mod.rs:612-654 | dumps the collected records, then the end records |
| JrodonExec.DirectoryTheorem | contenders/rust/jrodon-v3/src/part_executor/mod.rs:612-654 | the directory part has the same bytes for every arrival order |
| JrodonRun.HeadersTheorem | contenders/rust/jrodon-v3/src/part_executor/mod.rs:495-580 | the directory headers the elements send are, over all jobs, one per planned file in layout order at its final offset |
| JrodonRun.UploadTheorem | contenders/rust/jrodon-v3/src/part_executor/mod.rs:89-335 | whatever the arrival order of headers and the finishing order of parts, the completed upload is the canonical archive |
| JrodonRun.RoundTripTheorem | contenders/rust/jrodon-v3/src/zip_layout.rs:39-266 | the planned files are the listed ones; unless it leads astray as in JrodonArchive.EndRoundTrip, their directory reads back if and only if every entry is recoverable; and then every body is found |
| JrodonPlanned.PlannedRecoverable | contenders/rust/jrodon-v3/src/zip_layout.rs:39-196 | every entry of a planned archive is recoverable: a file over 4 GiB never starts at 0xFFFFFFFF, because the largest file leads behind a few small ones and all others start beyond |
| JrodonPlanned.PlannedRoundTrip | contenders/rust/jrodon-v3/src/zip_layout.rs:39-266 | so that every upload reads back as every listed file with its body, unless a reader is led astray |
| JrodonRun.ConversionRoundTrip | contenders/rust/jrodon-v3/src/part_executor/mod.rs:204-233 | a job converts exactly when it is a non-empty upload of plain entries, and the worker rebuilds the same job, size included |
| JrodonRun.DelegatedRoundTrip | contenders/rust/jrodon-v3/src/part_executor/mod.rs:378-440 | a delegated job survives the way back as well |
| JrodonRun.PlannedConverts | contenders/rust/jrodon-v3/src/part_executor/mod.rs:134-195 | no job chosen for delegation fails its conversion |
| JrodonRun.LastStaysLocal | contenders/rust/jrodon-v3/src/part_executor/mod.rs:134-195 | the directory part is never delegated |
| JrodonRun.ShareTheorem | contenders/rust/jrodon-v3/src/part_executor/mod.rs:139-147 | every planned upload in front of the last part is delegated, in order; what stays are the copies and the part with the directory |
| JrodonRun.ConvertAll | contenders/rust/jrodon-v3/src/part_executor/mod.rs:134-195 | converts all chosen jobs in order, or fails when one cannot be converted |
| JrodonRun.DelegationTheorem | contenders/rust/jrodon-v3/src/part_executor/mod.rs:134-195 | delegated and local jobs are together the planned jobs, each once |
| JrodonMemory.AdmissionTheorem | contenders/rust/jrodon-v3/src/part_executor/mod.rs:89-133 | local execution has a run to the end if and only if each job fits the memory semaphore on its own |
| JrodonMemory.HeldTheorem | contenders/rust/jrodon-v3/src/part_executor/mod.rs:89-133 | in every run the jobs under way, each spawned once, hold at most 50 MiB between them |
| JrodonMemory.CopiesTheorem | contenders/rust/jrodon-v3/src/part_executor/mod.rs:235-245 | copies run up to two hundred at a time, and no more |
| JrodonMemory.NeverStuck | contenders/rust/jrodon-v3/src/part_executor/mod.rs:89-133 | when each job fits, some turn is always possible until all are done |
| JrodonMemory.TurnsProgress | contenders/rust/jrodon-v3/src/part_executor/mod.rs:89-133 | and each such turn brings the run closer to its end |
| JrodonMemory.MemoryTheorem | contenders/rust/jrodon-v3/src/part_executor/mod.rs:235-245 | for a planned layout this is the case if and only if the last part, into which all singles have been merged, is at most 50 MiB |
| JrodonMemory.FanOutMemoryTheorem | contenders/rust/jrodon-v3/src/part_executor/mod.rs:134-195 | with sub-workers the same condition decides over the local jobs, and every batch of delegated jobs can finish in its worker |
| JrodonMemory.SmallFilesBlock | contenders/rust/jrodon-v3/src/part_executor/part_builder.rs:79-87 | the failing family: without a big file an archive over 50 MiB is one part that is never admitted, in any run |
| FanOut.Distribute | contenders/rust/jrodon-v3/src/lambda_executor.rs:100-129 | the nested loops end and deal slot by slot, for any jobs, workers and cap |
| FanOut.Dispatch | contenders/rust/jrodon-v3/src/lambda_executor.rs:100-145 | no batch exceeds the cap of 500 |
| FanOut.JobIsDealt | contenders/rust/jrodon-v3/src/lambda_executor.rs:100-129 | every job stands in the batch of its slot |
| FanOut.SlotsDiffer | contenders/rust/jrodon-v3/src/lambda_executor.rs:100-129 | no two places hold the same popped job |
| FanOut.BatchAt | contenders/rust/jrodon-v3/src/lambda_executor.rs:100-129 | what stands at each place of each batch |
| FanOut.FairTheorem | contenders/rust/jrodon-v3/src/lambda_executor.rs:91-129 | the totals of any two workers differ by at most one |
| FanOut.CycleTheorem | contenders/rust/jrodon-v3/src/lambda_executor.rs:131-145 | flattening the rounds and cycling through the workers sends every list to its own worker |
| SlabRing.RingTheorem | contenders/rust/jrodon/src/slabs_ring.rs:158-384 | in every run, whatever is called when and however writer, receiver and drops interleave: no unreachable state; received leases, leases under way, the slab being filled and the bytes still to come are the bytes given, in order, but for those counted as lost; no lease is empty or larger than a slab; live leases hold different slabs and keep their bytes |
| SlabRing.DeliveryTheorem | contenders/rust/jrodon/src/slabs_ring.rs:182-319 | in every run, once all is flushed and received, the consumer holds exactly what was written if and only if nothing was ever written into a slab that a flush had sealed short of full |
| SlabRing.WriterProgress | contenders/rust/jrodon/src/slabs_ring.rs:222-262 | every step of a write comes closer to its end, lexicographically in bytes left and stage, as long as another slab is free for a searching writer |
| SlabRing.ConsumerCanMove | contenders/rust/jrodon/src/slabs_ring.rs:340-384 | when nothing is called after a flush that sealed a slab, a writer that finds no free slab waits for a lease of another slab which the consumer holds or can receive |
| SlabWait.WaitTheorem | contenders/rust/jrodon/src/slabs_ring.rs:293-384 | in every run, a searching writer has a free slab or a lease of another slab to wait for exactly as long as some other slab is no orphan, that is, was not made ready without a lease by a second seal |
| SlabWait.StarvedForEver | contenders/rust/jrodon/src/slabs_ring.rs:340-384 | a writer with nothing to wait for waits for ever, whatever happens later |
| SlabWait.StarvationTheorem | contenders/rust/jrodon/src/slabs_ring.rs:182-384 | for every sequence of calls: some run of them starves the writer if and only if a write goes on behind a full slab after all but one of the slab count have each been sealed by a flush and left by a later write |
| SlabWait.FullFlushStarves | contenders/rust/jrodon/src/slabs_ring.rs:264-319 | the failing calls: two slabs of one byte, a byte, a flush of the exactly full slab, two bytes; nothing is lost and the writer starves |
| SlabRing.DropFrees | contenders/rust/jrodon/src/slabs_ring.rs:158-175 | dropping that lease frees its slab |
| SlabRing.CarefulIsSafe | contenders/rust/jrodon/src/slabs_ring.rs:222-319 | that condition on the calls holds exactly when no byte has been lost or is about to be |
| SlabRing.LostAfterFlush | contenders/rust/jrodon/src/slabs_ring.rs:264-319 | the failing family: after any run that ends with a flush that sealed a slab short, every non-empty write, however long and whatever happened to the lease, leaves sent and pending bytes different from the bytes given, for ever |
| SlabRing.ProtocolTheorem | contenders/rust/jrodon/src/slabs_ring.rs:182-384 | when nothing is called after a flush that sealed a slab, nothing is lost, every lease is a full slab but for the one the flush sends, and every ready slab is leased or about to be |
| ObjectReader.ProbesSound | benching/control-lambda/src/s3_object_proxy.rs:111-141 | on every set, what the probes report is in the set and covers |
| ObjectReader.PositionProbeTheorem | benching/control-lambda/src/s3_object_proxy.rs:113-127 | on an ordered set of non-empty ranges the two neighbours find every cover of a position if and only if a range that outreaches a later one is bridged: the range behind the later one has begun where that ends |
| ObjectReader.RangeProbeTheorem | benching/control-lambda/src/s3_object_proxy.rs:129-141 | they find every cover of a range if and only if a range that outreaches a later one has, behind that, one with the same start |
| ObjectReader.S3ObjectReader.ProbesNeverMiss | benching/control-lambda/src/s3_object_proxy.rs:281-346 | with one request in flight at most, which is all the reader ever has when it probes, both probes find whatever there is |
| ObjectReader.MemberIsFound | benching/control-lambda/src/s3_object_proxy.rs:129-141 | a range already in flight is always found, so that it is never requested twice |
| ObjectReader.AskedContains | benching/control-lambda/src/s3_object_proxy.rs:360-385 | the window asked for at a position inside the object is 16 MiB long and holds the position and what follows it, up to the end of the object or of the 16 MiB |
| ObjectReader.AnswerableTheorem | benching/control-lambda/src/s3_object_proxy.rs:367-385 | which positions a read can be answered at, exactly; beyond the object only the very end of an object shorter than a window |
| ObjectReader.S3ObjectReader.AskWindow | benching/control-lambda/src/s3_object_proxy.rs:367-404 | sends the clamped range if and only if neither the current window nor any request in flight covers it |
| ObjectReader.S3ObjectReader.AskNextWindow | benching/control-lambda/src/s3_object_proxy.rs:348-359 | afterwards exactly the next window is in flight, or nothing when the current one already reaches as far; every position behind the current window, as far as twice its length or 256 MiB reach, is under way |
| ObjectReader.S3ObjectReader.ReceiveWindow | benching/control-lambda/src/s3_object_proxy.rs:294-304 | takes the next window off the channel and out of the in-flight set |
| ObjectReader.S3ObjectReader.CurrentWindow | benching/control-lambda/src/s3_object_proxy.rs:281-346 | never blocks with nothing in flight, ends with a window that contains the position, and leaves nothing in flight but, at most, the window behind it; everything the prefetch has to reach there is under way |
| ObjectReader.S3ObjectReader.Read | benching/control-lambda/src/s3_object_proxy.rs:409-427 | returns exactly the bytes of the object at the position, and fewer than asked for only at the end of the window or of the object |
| ObjectReader.S3ObjectReader.Seek | benching/control-lambda/src/s3_object_proxy.rs:433-450 | moves only the position: to the offset; so far in front of the end, its start at most and never past it; or so far on, stopping at zero and at the largest usize |
| MultipartSink.TakeFront | contenders/python/sebsto/index.py:166-183 | cuts exactly size bytes off the front of the chunks, never indexes an empty list and never leaves an empty chunk |
| MultipartSink.Sink.Emit | contenders/python/sebsto/index.py:166-191 | one more part under the next number; dispatched parts and pending chunks stay the stream; at most the backlog depth is in flight |
| MultipartSink.Sink.Write | contenders/python/sebsto/index.py:147-157 | appends to the stream, sends whole parts of 8 MiB and leaves less than one buffered |
| MultipartSink.Sink.Tell | contenders/python/sebsto/index.py:141-145 | the length of the stream while the sink is open; once closed, that length rounded up to a whole number of 8 MiB parts |
| MultipartSink.Sink.Close | contenders/python/sebsto/index.py:159-164 | the rest of the stream becomes the last part, the only one that may be short |
| MultipartSink.SinkUploadTheorem | contenders/python/sebsto/index.py:111-209 | the parts complete to exactly the written stream, in any order and with any retries |
| SlabPool.PoolTheorem | contenders/python/j-nicholson98/archiver/archive.py:44-118 | in every run, with or without failures, each slab is in exactly one place, a queued body is unchanged until the assembler has copied it, and what is written is right |
| SlabPool.CleanRunTheorem | contenders/python/j-nicholson98/archiver/archive.py:44-118 | without failures no key is lost or doubled, and a finished run has written every object exactly once |
| SlabPool.RunProgressTheorem | contenders/python/j-nicholson98/archiver/bufferpool.py:16-38 | after every run without failures, with a worker, a slab and room for one item, some step leaves less to do or finishes with every object written once |
| SlabPool.CompletionTheorem | contenders/python/j-nicholson98/archiver/archive.py:44-118 | every run without failures can be continued to one that has written every object exactly once |
| SlabPool.WorkShrinks | contenders/python/j-nicholson98/archiver/archive.py:71-118 | every step that is possible leaves less to do, so that the run ends whatever the schedule |
| RateGovernor.BudgetTheorem | contenders/rust/figment-engine-chain/src/rate_limit.rs:171-234 | in every run of any number of callers, on any clock: 1000 per granted call plus the tokens held never exceed 4000 plus 3200 per millisecond the refills have seen, where a stretch that a swap set back counts again; the rate stays within its bounds |
| RateGovernor.CallersTheorem | contenders/rust/figment-engine-chain/src/rate_limit.rs:171-234 | on a clock that never runs backwards n callers draw at most n times the ceiling rate: 4000 plus 3200 * n per millisecond up to the latest reading; set-backs add up to at most n - 1 times that time |
| RateGovernor.PlainBudgetTheorem | contenders/rust/figment-engine-chain/src/rate_limit.rs:171-234 | 4000 plus 3200 per millisecond, against the last refill or against the latest reading, holds in every run on a clock that never runs backwards if and only if there is at most one caller |
| RateGovernor.NoSetBack | contenders/rust/figment-engine-chain/src/rate_limit.rs:171-191 | a run in which no swap sets the refill time back keeps the plain budget |
| RateGovernor.OvertakenSwapOverdraws | contenders/rust/figment-engine-chain/src/rate_limit.rs:171-191 | the failing run for two callers or more: one is overtaken between reading the clock and its swap, and the same millisecond is drawn twice; 7600 are granted or held at millisecond 1 |
| RateGovernor.SpacingTheorem | contenders/rust/figment-engine-chain/src/rate_limit.rs:193-280 | down steps are at least 100 ms apart and up slots at least 500 ms, under every interleaving and on any clock |
| RateLaws.ThrottleTheorem | contenders/rust/figment-engine-chain/src/rate_limit.rs:257-281 | a report of a 503 that runs to its end undisturbed takes the rate down by 100, to 200 at the least, unless a step was taken within 100 ms, and changes no token |
| RateLaws.TryTakeTheorem | contenders/rust/figment-engine-chain/src/rate_limit.rs:171-234 | a call that runs to its end undisturbed refills by rate times the time passed, to 4000 at the most, takes the rate up by 150, to 3200 at the most, when 500 ms have passed since the last such step and the last 503, and takes a token if and only if one is there |
| RateLaws.RateTheorem | contenders/rust/figment-engine-chain/src/rate_limit.rs:193-280 | in every run, under every interleaving, the rate is at least 1800 less 100 for every step down and at most 1800 plus 150 for every step up; without a step up, it is at most 1700 from the first step down that has been stored |

## Left out

- S3, Lambda and HTTP calls, signing, backoff, timeouts, logging and statistics other than the planners' counters: S3 is a map from keys to bytes with the floor rule, a retry repeats an upload.
- S3's limits on part count, part size (5 GiB) and object size: no planner checks them.
- Integer widths of the planners' running sums: sizes are unbounded; only the fields written into records are truncated.
- `zipfile`, `zip`, `base64` and the AWS transfer library are not part of this model.
- jrodon-v2, which has the planner, builder and format of v3; the chunkers of the TypeScript, C and remaining Python contenders, which make the sink's claim in a simpler form.
- What a reader may overlook: file times, attributes, and the version 1.0 that jrodon-v3 also writes with ZIP64 blocks, where section 4.4.3 of APPNOTE.TXT asks for 4.5. Names are byte strings, and neither writer marks them as UTF-8.
- A failed CRC look-up in the chain run, which ends the whole run with its error; the run models arrivals only.
- Waiting and waking of the governor's callers, the two priorities, the recorded minimum rate; rates are reals with a floor at the cast, not floating point.
- Unsafe aliasing of the shared buffer and the ring is modelled by disjoint index ranges of one byte string, and reference counts are left out.
- Update in place inside one step of the ring, the slab pool, the governor, the memory semaphore and the concurrent chain run: these are state machines over values, one atomic action a step, because their point is every interleaving.
- JrodonArchive.ListingRoundTrip: not for a listing that leads astray, where the reader may by coincidence find a copy of the same directory; what it is led to is said by `JrodonArchive.EndRoundTrip`.
- JrodonRun.RoundTripTheorem: the part about the directory, for the same reason.
- JrodonPlanned.PlannedRoundTrip: the same; names are at most 65535 bytes and archives below 2 to the 64th.
- JrodonLimit.FullListingIsMisread: names that hold control characters are assumed to be listed as they are.
- ChainStitch.SafetyTheorem: names are at most 65535 bytes, so that no header reaches the floor by itself.
- ChainStitch.ArchiveTheorem: the same bound on names.
- JrodonMemory.MemoryTheorem: the same bound on names, without which a small file's header could fill a part.
- SlabRing.RingTheorem: at least two slabs of at least one byte.
- SlabRing.ConsumerCanMove: under the writer's protocol; `SlabWait.WaitTheorem` is exact for all runs.
- SlabWait.StarvationTheorem: at least two slabs of at least one byte.
- SlabPool.CompletionTheorem: runs without failures; with a failure the run stops, and only the safety of `SlabPool.PoolTheorem` is claimed.
- MultipartSink.Sink.Emit: blocking on the backlog is a wait until some upload finishes; that uploads finish is assumed.
- ObjectReader.S3ObjectReader.Seek: `usize` has 64 bits; the conversion of a seek distance to it is not modelled.
- ObjectReader.S3ObjectReader.Read: the position is inside the object; `ObjectReader.AnswerableTheorem` says what happens beyond.
- FanOut.Distribute: at least one worker; with none the source panics on the first, empty round.
