# jdownloader core, modelled in Dafny

jdownloader fetches one remote resource over HTTP. When the server accepts
byte ranges and the resource is larger than a threshold, it downloads in
parallel. It splits the resource into `partCount` spans and runs one
`PartExtractor` task per span. Each task sends a `Range` request, insists on
`206 Partial Content`, and puts the body on a queue. A single `Writer` task
takes the parts off the queue and writes each one at its offset into a target
file that was pre-sized to the remote length. Otherwise the resource is
copied directly.

The model covers:

- the engine `JDownloader`:
  - its two constructors, with their defaults;
  - the builders `target`, `minimumSplit` and `partCount`;
  - `execute`: the default target name, the HEAD probe, the threaded-or-direct
    decision, the per-part range, the thread-pool preconditions,
    pre-allocation, part submission, the writer, and the classification of
    part failures;
- the part task's range arithmetic, in Java `long`/`int` arithmetic with its
  wrap-around, the `Range` header it sends, its `206` check and its enqueue;
- the writer's do-while drain.

The file is a byte sequence with a file pointer. The queue is a FIFO sequence.
The remote server is a function that answers range requests as RFC 7233
describes (sections 2.1, 4.1 and 4.4). It stands for the environment and is
not part of jdownloader.

The modules are:

- `JavaLong`: `long`/`int` wrap-around, `Long.toString` and `Long.parseLong`.
- `PartRanges`: the spans, the header, and the sizing lemmas.
- `Parts`: `PartCache` and the queue.
- `RandomAccess`: `RandomAccessFile`, and the fact that the writer's result
  does not depend on the order it takes parts in.
- `RangeServer`.
- `PartExtractor`.
- `Writer`.
- `Failures`: throwables and their classification.
- `Downloader`: the engine.
- `Correctness`: end-to-end properties of `execute`.

The concurrent part of `execute` is modelled as a sequential run in a
schedule `order`, which is any permutation of the part indices. The part
tasks run in that order, and each one enqueues its part. `faults` stands for
per-part transport failures. The writer then drains the queue. Because of
`RandomAccess.OrderIndependent`, the final file does not depend on the
order in which the writer takes the parts. This holds as long as the queue
never overflows. The program's queue is bounded, and a part count above the
default can overflow it; see "## Left out".

The engine classifies part failures as the code is written
(`Failures.ClassifyAsWritten`): every failing part ends as the generic
"Caught exception from PartExtractor". The evidently intended classification,
`Failures.ClassifyTaskFailure`, is modelled beside it (see "## Findings").
`Correctness.FaultLostAsWritten` and `Correctness.OneBytePerPartFails` state
both what the task threw and what `execute` throws.

`Correctness.DownloadIsExact` holds for every resource with more bytes than
parts. With fewer bytes than parts, or exactly one byte per part with two
or more parts, some span is unsatisfiable (`PartRanges.SatisfiableExactly`;
one byte in one part is satisfiable), and a threaded download fails:
`Correctness.OneBytePerPartFails` and `Correctness.FewerBytesThanPartsFail`
state it.

The engine and the part task in the repository come from different
revisions. In each case the model follows the code of the part task and the
writer:

- `JDownloader.java:215` constructs the part task without the queue, and
  `:224` puts each future's value on the queue. `PartExtractor.java:51-52`
  takes the queue, enqueues its own part (`:88`) and returns `null` (`:108`).
  The model follows the part task: each task enqueues its own part once. The
  engine's `queue.put` of the task's result is not modelled.
- `PartExtractor.java:66` and `Writer.java:79` read a constant
  `JDownloader.PART_COUNT` that the engine does not declare. The model uses
  the engine's `partCount` in its place.

## Model

| member | source | states |
|---|---|---|
| JavaLong.Wrap64 | src/main/java/org/goots/jdownloader/PartExtractor.java:65-69 | `long` arithmetic: the result is in the `long` range and equals the exact value whenever that is in range |
| JavaLong.Wrap64Congruent | src/main/java/org/goots/jdownloader/PartExtractor.java:65-69 | the wrapped value differs from the exact one by a multiple `k * 2^64`, so with its range it is Java's two's-complement result |
| JavaLong.Wrap32 | src/main/java/org/goots/jdownloader/PartExtractor.java:65 | `int` arithmetic (`partIndex - 1`): the result is in the `int` range and equals the exact value whenever that is in range |
| JavaLong.Wrap32Congruent | src/main/java/org/goots/jdownloader/PartExtractor.java:65 | the wrapped value differs from the exact one by a multiple `k * 2^32` |
| JavaLong.LongToString | src/main/java/org/goots/jdownloader/PartExtractor.java:65-69 | `Long.toString` is non-empty, starts with `-` exactly for negative values, and is all digits otherwise |
| JavaLong.ParseLong | src/main/java/org/goots/jdownloader/PartExtractor.java:88 | `Long.parseLong` of a digit string returns its value when it fits in a `long` and fails when it does not; empty text, a first character that is neither a digit nor a sign, or a sign without digits fails |
| JavaLong.DecimalRoundTrip | src/main/java/org/goots/jdownloader/PartExtractor.java:65-69 | reading back the decimal digits of any natural number gives the number |
| JavaLong.LongRoundTrip | src/main/java/org/goots/jdownloader/PartExtractor.java:88 | parsing the printed text of any `long` gives the same `long` |
| PartRanges.RangeStart | src/main/java/org/goots/jdownloader/PartExtractor.java:65 | the first byte of a part, computed in `int`/`long` arithmetic; StartValue states its value under the engine's sizing |
| PartRanges.RangeEnd | src/main/java/org/goots/jdownloader/PartExtractor.java:66-69 | the last byte of a part, `remoteSize + 1` for the last; EndValue states its value under the engine's sizing |
| PartRanges.FromText | src/main/java/org/goots/jdownloader/PartExtractor.java:65 | the `from` text parses back to the span's start: 0 for part 1, `(i-1)*range+1` otherwise |
| PartRanges.ToText | src/main/java/org/goots/jdownloader/PartExtractor.java:66-69 | the `to` text parses back to the span's end: `i*range`, or `remoteSize+1` for the last part |
| PartRanges.RangeHeader | src/main/java/org/goots/jdownloader/PartExtractor.java:73 | the header is `bytes=` followed by the printed start, `-`, and the printed end |
| PartRanges.PartProductBound | src/main/java/org/goots/jdownloader/JDownloader.java:203 | with `range = remoteSize / partCount`, `k * range` stays within `[0, remoteSize]` for every `k <= partCount`, so no product overflows |
| PartRanges.StartValue | src/main/java/org/goots/jdownloader/PartExtractor.java:65 | under the engine's sizing, the wrapped start equals the exact start |
| PartRanges.EndValue | src/main/java/org/goots/jdownloader/PartExtractor.java:66-69 | under the engine's sizing, the wrapped end equals the exact end |
| PartRanges.Contiguous | src/main/java/org/goots/jdownloader/PartExtractor.java:65-69 | each part starts one byte after the previous part ends |
| PartRanges.Ordered | src/main/java/org/goots/jdownloader/PartExtractor.java:65-69 | for `i < j`, part `i` ends before part `j` starts, so no byte is requested twice |
| PartRanges.Covered | src/main/java/org/goots/jdownloader/PartExtractor.java:65-69 | every position from 0 to `remoteSize + 1` lies in the span of some part |
| PartRanges.SatisfiableWhenLarge | src/main/java/org/goots/jdownloader/JDownloader.java:203 | with more bytes than parts, every span is non-empty and starts inside the resource |
| PartRanges.UnsatisfiableWhenFewerBytes | src/main/java/org/goots/jdownloader/PartExtractor.java:65-69 | with fewer bytes than parts, `range` is 0, part 2 of three or more asks for the reversed span `[1, 0]`, and the spans are not all satisfiable |
| PartRanges.SatisfiableExactly | src/main/java/org/goots/jdownloader/PartExtractor.java:65-69 | under the engine's sizing, the spans are all satisfiable iff the resource has more bytes than parts, or is one byte in one part |
| PartRanges.UnsatisfiableWhenOneBytePerPart | src/main/java/org/goots/jdownloader/PartExtractor.java:65-69 | with exactly one byte per part and two or more parts, the last span starts at `remoteSize`, past the final byte |
| RangeServer.ByteRangeRoundTrip | src/main/java/org/goots/jdownloader/PartExtractor.java:73 | a server reads the header the task writes back as the same two positions |
| RangeServer.SignedFirstUnreadable | src/main/java/org/goots/jdownloader/PartExtractor.java:65 | a header whose first position carries a sign is not a readable byte range |
| RangeServer.SignedLastUnreadable | src/main/java/org/goots/jdownloader/PartExtractor.java:66-69 | a header whose last position carries a sign is not a readable byte range |
| RangeServer.Serve | src/main/java/org/goots/jdownloader/PartExtractor.java:75-77 | a `206` answer always carries at least one byte, and every answer is `200`, `206` or `416`, so it always carries an entity |
| Parts.TotalLength | src/main/java/org/goots/jdownloader/Writer.java:57 | the `byteCount` the writer accumulates over the parts it took; Writer.Call and Writer.WriteStep state it |
| Parts.PartQueue.constructor | src/main/java/org/goots/jdownloader/JDownloader.java:64 | the queue starts empty |
| Parts.PartQueue.Add | src/main/java/org/goots/jdownloader/PartExtractor.java:88 | `add` appends the part at the tail |
| Parts.PartQueue.Take | src/main/java/org/goots/jdownloader/Writer.java:55 | `take` removes the head and returns it |
| RandomAccess.Overwrite | src/main/java/org/goots/jdownloader/Writer.java:67 | after a write, the window holds the bytes and every other byte is unchanged, or zero where the file grew; the length is the larger of the old length and the window's end |
| RandomAccess.Resize | src/main/java/org/goots/jdownloader/JDownloader.java:211 | `setLength(n)` gives exactly `n` bytes and keeps the old prefix; any extension is zero-filled, as the platform does (see Left out) |
| RandomAccess.RandomFile.Open | src/main/java/org/goots/jdownloader/JDownloader.java:209 | opening in mode "rw" keeps the content and puts the pointer at 0 |
| RandomAccess.RandomFile.SetLength | src/main/java/org/goots/jdownloader/JDownloader.java:211 | a negative length is refused and changes nothing; otherwise the file is resized and the pointer is clamped to the new length |
| RandomAccess.RandomFile.Seek | src/main/java/org/goots/jdownloader/Writer.java:66 | a negative position is refused; otherwise the pointer moves there and the content is unchanged |
| RandomAccess.RandomFile.Write | src/main/java/org/goots/jdownloader/Writer.java:67 | writes the bytes at the pointer and advances the pointer by their length |
| RandomAccess.ApplyAll | src/main/java/org/goots/jdownloader/Writer.java:53-79 | the file after writing the parts in sequence order; OrderIndependent and Reassembles state what it is |
| RandomAccess.ShapedUnique | src/main/java/org/goots/jdownloader/Writer.java:53-79 | the file after writing pairwise-disjoint parts is determined by the set of parts alone |
| RandomAccess.OrderIndependent | src/main/java/org/goots/jdownloader/Writer.java:53-79 | writing pairwise-disjoint parts in any permutation gives the same file |
| RandomAccess.WritesCommute | src/main/java/org/goots/jdownloader/Writer.java:66-67 | two writes to disjoint windows commute |
| RandomAccess.Reassembles | src/main/java/org/goots/jdownloader/Writer.java:53-79 | disjoint slices of a resource that cover it, written in any order into a file of the resource's length, leave exactly the resource |
| Writer.Iterations | src/main/java/org/goots/jdownloader/Writer.java:53-79 | a do-while guarded by `counter < partCount` runs `partCount` times, but at least once; Writer.Call is stated with it |
| Writer.FirstUnseekable | src/main/java/org/goots/jdownloader/Writer.java:66 | the position of the first part with a negative offset: every earlier part can be sought to |
| Writer.Call | src/main/java/org/goots/jdownloader/Writer.java:47-84 | the writer takes `partCount` parts (at least one) in FIFO order and writes each at its offset. At the first negative offset it stops with an IOException, having taken that part but not written it. On success the byte count is the total length of the parts |
| Writer.WriteStep | src/main/java/org/goots/jdownloader/Writer.java:57-75 | writing one more part extends the written prefix by that part's overwrite and the byte count by its length |
| PartExtractor.Extract | src/main/java/org/goots/jdownloader/PartExtractor.java:62-109 | for any server answer: a transport fault is what the task throws; otherwise the task succeeds iff the status is `206`, throws NullPointerException on a `204`, `205` or `304` answer, which has no entity to take the length of in the rejection message (:79-82), fails with "Did not retrieve partial content" on every other status, and on success yields the answer's body at the span's start |
| PartExtractor.Call | src/main/java/org/goots/jdownloader/PartExtractor.java:62-109 | for any server: sends the part's header; on success enqueues exactly the extracted part; on failure leaves the queue alone and throws the failure |
| PartExtractor.Outcome | src/main/java/org/goots/jdownloader/PartExtractor.java:65-88 | the task's outcome against a range-honouring server, in terms of the numeric span; ExtractIsOutcome proves it equal to Extract |
| PartExtractor.ServedSlice | src/main/java/org/goots/jdownloader/PartExtractor.java:73-88 | with satisfiable spans, part `i` receives exactly the resource's bytes from its start to its end (clamped to the resource), queued at its start |
| PartExtractor.ExtractIsOutcome | src/main/java/org/goots/jdownloader/PartExtractor.java:65-88 | against a range-honouring server, the header round trip loses nothing: the task's outcome depends only on the numeric span and the resource, overflowed spans included |
| PartExtractor.ServedSpan | src/main/java/org/goots/jdownloader/PartExtractor.java:75-77 | for a readable range, the server answers `206` iff the span is well ordered and starts inside the resource, with the clamped slice as body |
| Failures.ClassifyCause | src/main/java/org/goots/jdownloader/JDownloader.java:232-255 | an IOException or InternalException is rethrown as itself; OutOfMemoryError stops the pool and becomes "Fatal out of memory"; anything else becomes "Caught exception from PartExtractor" |
| Failures.ClassifyAsWritten | src/main/java/org/goots/jdownloader/JDownloader.java:226-255 | as written, every part failure ends as "Caught exception from PartExtractor", without stopping the pool |
| Failures.AsWrittenLosesIOException | src/main/java/org/goots/jdownloader/JDownloader.java:234-237 | a part that fails with an IOException is reported as an InternalException, not as the IOException the first branch rethrows |
| Failures.ClassifyTaskFailure | src/main/java/org/goots/jdownloader/JDownloader.java:232-255 | the corrected classification of what the task threw: an IOException stays an IOException, an InternalException keeps its message, OutOfMemoryError stops the pool, and a NullPointerException becomes "Caught exception from PartExtractor" |
| Downloader.DefaultPartCount | src/main/java/org/goots/jdownloader/JDownloader.java:56 | the default part count is the processor count, but at least 4 |
| Downloader.BaseName | src/main/java/org/goots/jdownloader/JDownloader.java:150 | the name is the longest suffix of the path without a `/` or `\` |
| Downloader.ResolvedTarget | src/main/java/org/goots/jdownloader/JDownloader.java:148-151 | a non-empty configured target is kept; an unset or empty one becomes the remote file's name |
| Downloader.ProbeRemote | src/main/java/org/goots/jdownloader/JDownloader.java:155-199 | HEAD is sent iff `minimumSplit > 0`. Threading is flagged iff ranges are `bytes` and a length is present. An unparsable length fails with NumberFormatException. The size is the parsed length |
| Downloader.ThreadedDecision | src/main/java/org/goots/jdownloader/JDownloader.java:165-201 | the HEAD status does not matter; the threaded branch is taken iff splitting is on, ranges are `bytes`, and the length exceeds `minimumSplit` |
| Downloader.GoesThreaded | src/main/java/org/goots/jdownloader/JDownloader.java:201 | the branch test `downloadThreaded && remoteSize > minimumSplit`; ThreadedDecision states when it holds, and Execute and ExecuteSpec both use it |
| Downloader.PoolCheck | src/main/java/org/goots/jdownloader/JDownloader.java:203-206 | the threaded branch proceeds iff `1 <= partCount < Integer.MAX_VALUE`; zero parts fail with ArithmeticException |
| Downloader.PartRange | src/main/java/org/goots/jdownloader/JDownloader.java:203 | the per-part range is the quotient: `range * partCount <= remoteSize < range * partCount + partCount` with `range >= 0`, which is what Java's truncating division gives for these operands |
| Downloader.ExecuteSpec | src/main/java/org/goots/jdownloader/JDownloader.java:142-280 | `execute`'s result, files and queue; Execute is proved to follow it, and DownloadIsExact, FaultLostAsWritten, OneBytePerPartFails and FewerBytesThanPartsFail state what it yields |
| Downloader.ThreadedSpec | src/main/java/org/goots/jdownloader/JDownloader.java:201-268 | the threaded branch: pre-sized target, the tasks' parts queued, a failure classified as written, or else the writer's drain; ThreadedIsExact states its success case |
| Downloader.DrainSpec | src/main/java/org/goots/jdownloader/JDownloader.java:217-268 | the writer's effect on the target and the queue; DrainIsExact states it for a tiling queue |
| Downloader.PartIndices | src/main/java/org/goots/jdownloader/JDownloader.java:213-216 | the submitted part indices are exactly `1..n` in order |
| Downloader.PartJob.Run | src/main/java/org/goots/jdownloader/PartExtractor.java:62-109 | one task's outcome against a range-honouring server, with its transport fault; ExtractIsOutcome ties it to Extract and ServedPiece states it for a clean task |
| Downloader.Outcomes | src/main/java/org/goots/jdownloader/JDownloader.java:213-230 | one outcome per task run |
| Downloader.OutcomesAt | src/main/java/org/goots/jdownloader/JDownloader.java:213-230 | the k-th outcome is that of the k-th task in the schedule |
| Downloader.Queued | src/main/java/org/goots/jdownloader/JDownloader.java:221-230 | the parts the succeeding tasks put on the queue, in schedule order; AppendOutcome, AllSucceeded and AllServed state it |
| Downloader.FirstError | src/main/java/org/goots/jdownloader/JDownloader.java:221-230 | the failure the stream reports: the earliest in the schedule; AppendOutcome, FirstErrorOf and FirstErrorIn state it |
| Downloader.AppendOutcome | src/main/java/org/goots/jdownloader/JDownloader.java:221-230 | one more task adds its part to the queue if it succeeds, and sets the failure if none came before |
| Downloader.AllSucceeded | src/main/java/org/goots/jdownloader/JDownloader.java:221-230 | with no failure, every task queued exactly its own part |
| Downloader.ScheduleLength | src/main/java/org/goots/jdownloader/JDownloader.java:213-216 | a schedule of `partCount` parts runs exactly `partCount` tasks |
| Downloader.Disk.constructor | src/main/java/org/goots/jdownloader/JDownloader.java:209 | the disk holds the given files |
| Downloader.JDownloader.constructor | src/main/java/org/goots/jdownloader/JDownloader.java:52-80 | a new engine has no target, the default part count, a 10 MB minimum split, `partCount * 10` (as an `int`) total connections, and an empty queue |
| Downloader.JDownloader.FromText | src/main/java/org/goots/jdownloader/JDownloader.java:68-81 | a null or empty string fails with "No remote specified"; a malformed URL fails with an IOException; the engine is made iff neither happens, with the defaults |
| Downloader.JDownloader.FromUrl | src/main/java/org/goots/jdownloader/JDownloader.java:83-96 | a null URL fails with "No remote specified"; otherwise the engine is made with the defaults |
| Downloader.JDownloader.Target | src/main/java/org/goots/jdownloader/JDownloader.java:104-109 | sets the target, changes nothing else, and returns the same engine |
| Downloader.JDownloader.MinimumSplit | src/main/java/org/goots/jdownloader/JDownloader.java:117-121 | sets the minimum split, changes nothing else, and returns the same engine |
| Downloader.JDownloader.PartCount | src/main/java/org/goots/jdownloader/JDownloader.java:129-133 | sets the part count, changes nothing else (not the pool size), and returns the same engine |
| Downloader.JDownloader.Execute | src/main/java/org/goots/jdownloader/JDownloader.java:142-280 | records the resolved target. The probe's NumberFormatException is thrown. The direct branch copies the resource to the target. Thread-pool failures are thrown before any file is touched. Otherwise the threaded branch runs, and a failing part is thrown as the code classifies it as written |
| Downloader.JDownloader.RunThreaded | src/main/java/org/goots/jdownloader/JDownloader.java:201-268 | pre-sizes the target to `remoteSize`, submits parts `1..partCount`, runs them in the schedule, throws "Caught exception from PartExtractor" (as written) if one fails, and otherwise lets the writer drain `partCount` parts into the target |
| Downloader.RunParts | src/main/java/org/goots/jdownloader/JDownloader.java:213-230 | every succeeding task appends its part to the queue in schedule order; the reported failure is the earliest one in the schedule |
| Downloader.RunPart | src/main/java/org/goots/jdownloader/JDownloader.java:224 | one task's future: its failure, or its part appended to the queue |
| Downloader.Drain | src/main/java/org/goots/jdownloader/JDownloader.java:217-268 | the writer's effect on the target, the queue, and the `writerCompleted` flag that `wFuture.isDone` waits for |
| Correctness.Piece | src/main/java/org/goots/jdownloader/PartExtractor.java:65-88 | the part a clean task receives lies inside the resource, starts at the span start, and is the resource's slice there |
| Correctness.ServedPiece | src/main/java/org/goots/jdownloader/PartExtractor.java:62-109 | a fault-free task with a satisfiable span succeeds with that piece |
| Correctness.AllServed | src/main/java/org/goots/jdownloader/JDownloader.java:213-230 | with no faults every task succeeds and the queue holds the pieces in schedule order |
| Correctness.PiecesDisjoint | src/main/java/org/goots/jdownloader/PartExtractor.java:65-69 | pieces of distinct parts share no byte |
| Correctness.QueuedDisjoint | src/main/java/org/goots/jdownloader/JDownloader.java:213-230 | the queued parts are pairwise disjoint |
| Correctness.PieceCovers | src/main/java/org/goots/jdownloader/PartExtractor.java:65-69 | every byte of the resource lies in some part's piece |
| Correctness.QueuedCovers | src/main/java/org/goots/jdownloader/JDownloader.java:213-230 | the queued parts cover every byte of the resource |
| Correctness.ThreadedIsExact | src/main/java/org/goots/jdownloader/JDownloader.java:201-268 | with no faults and satisfiable spans, the threaded branch succeeds, the writer completes, the target holds exactly the resource, and the queue ends empty, for every schedule |
| Correctness.DrainIsExact | src/main/java/org/goots/jdownloader/Writer.java:53-79 | given one piece per part that tile the resource, the writer reassembles it and empties the queue |
| Correctness.DownloadIsExact | src/main/java/org/goots/jdownloader/JDownloader.java:142-280 | with an honest HEAD, no faults and more bytes than parts, `execute` fails only on a part count the pool refuses; otherwise the target holds exactly the resource on either branch, for every schedule (the unbounded queue of the model; see Left out) |
| Correctness.FirstErrorOf | src/main/java/org/goots/jdownloader/JDownloader.java:221-230 | if all failures are alike, the reported failure is that one |
| Correctness.OneBytePerPartFails | src/main/java/org/goots/jdownloader/PartExtractor.java:75-83 | a resource of exactly one byte per part (at least two parts): the last task throws "Did not retrieve partial content", `execute` as written throws "Caught exception from PartExtractor" after pre-sizing the target, and the corrected classification would rethrow the task's exception |
| Correctness.LastPartUnserved | src/main/java/org/goots/jdownloader/PartExtractor.java:75-83 | with one byte per part, the first failure the tasks report, in every schedule, is the last part's "Did not retrieve partial content" |
| Correctness.FewerBytesThanPartsFail | src/main/java/org/goots/jdownloader/PartExtractor.java:75-83 | a resource of fewer bytes than parts but more than `minimumSplit`: a task throws "Did not retrieve partial content", and `execute` as written throws "Caught exception from PartExtractor" after pre-sizing the target |
| Correctness.MiddlePartUnserved | src/main/java/org/goots/jdownloader/PartExtractor.java:75-83 | with fewer bytes than parts (three or more), the first failure the tasks report, in every schedule, is "Did not retrieve partial content" |
| Correctness.OnlyFaultFails | src/main/java/org/goots/jdownloader/JDownloader.java:221-230 | with one faulty part and more bytes than parts, the first failure the tasks report, in every schedule, is that part's IOException |
| Correctness.FaultLostAsWritten | src/main/java/org/goots/jdownloader/JDownloader.java:226-255 | one part failing with an IOException while the others are served: the tasks throw that IOException, `execute` as written throws the generic InternalException without stopping the pool, and the corrected classification would rethrow the IOException |

## Left out

- Concurrency. The thread pool, the parallel stream over the futures, the
  writer running beside the part tasks, and the busy wait on `wFuture` are
  modelled as one sequential run in a schedule `order`.
  - The schedule stands both for the order in which tasks finish and for the
    order in which the stream meets their futures.
  - When a part fails, the model has every task run and leaves the writer
    unstarted, so the target keeps its pre-allocated content. In the program,
    other tasks and the writer may still be running when `execute` throws.
  - The queue's capacity is not modelled. It is fixed at JDownloader.java:64
    from the default part count. The part task enqueues with `add`
    (PartExtractor.java:88), which throws IllegalStateException on a full
    queue instead of blocking. With `partCount` raised above the default by
    the builder, a task can fail that way whenever more parts have arrived
    than the writer has taken, for instance on the model's own schedule (all
    tasks, then the writer). `execute` then throws "Caught exception from
    PartExtractor". The model's queue never fills.
- HTTP transport and the connection pool. The HEAD response and the remote
  content are parameters, and per-part transport failures are the `faults`
  map. The part task takes the server as a function from `Range` value to
  answer, so any status and body can be given; whether an answer carries an
  entity is decided by its status, as the HTTP client decides it (none for
  `204`, `205` and `304`). The engine and the end-to-end lemmas
  use a server modelled on RFC 7233, which is not code of this repository. A
  HEAD request that itself fails with an IOException is not modelled.
- URL parsing. `new URL` and `toURI` are not modelled: the parsed URL is a
  parameter, and `None` stands for a MalformedURLException.
- The file system. The disk accepts every name. A target that cannot be
  opened is not modelled. That includes the empty name `getName` yields for a
  remote path ending in `/`.
- Closing the file and the pool (`close`, `shutdown`, try-with-resources),
  and logging. The direct copy's `FileUtils.copyURLToFile` is modelled only by
  its effect: the target holds the resource.
- The per-route connection limit, which is computed in floating point
  (JDownloader.java:79).
- Downloader.JDownloader.Execute: the writer's own IOException is reported
  only through `writerCompleted == false`. This matches the program, which
  never calls `wFuture.get()`.
- Correctness.DownloadIsExact: its "for every schedule" holds for the model's
  unbounded queue. In the program it holds for every interleaving only while
  `partCount` does not exceed the queue's capacity, the default part count.
- RandomAccess.Resize: Java leaves the bytes of an extended file unspecified.
  The zeros come from the platform (POSIX `ftruncate`). Every byte of the
  pre-allocated target is overwritten by a part in the exact-download
  lemmas, so they do not depend on this.
- RandomAccess.Overwrite: Java also leaves unspecified the bytes between the
  old end and a write that starts past it; the zeros again come from the
  platform (POSIX `pwrite`). The pre-sized engine path never starts a write
  past the end.
- Writer.Call: `byteCount` is an unbounded integer, not a `long`. The total
  cannot exceed the file size anyway.
- PartExtractor.Extract: the failure message keeps only the fixed prefix
  "Did not retrieve partial content", without the status and length the
  program appends (PartExtractor.java:79-82).
- `Main.java`, `ByteUtils` and the logging helpers are not part of this
  model.
- JDownloader.java:224 (`queue.put(p.get())`) is not modelled, because of
  the revision skew described above.

## Findings

| source | as written | input that shows it | evidently intended | confidence | as-written member | corrected member |
|---|---|---|---|---|---|---|
| src/main/java/org/goots/jdownloader/JDownloader.java:226-255 | the stream wraps the ExecutionException from `Future.get` in InternalRuntimeException, so `getCause()` is the ExecutionException and only the last branch ever fires | a part task that throws an IOException (or "Did not retrieve partial content", or OutOfMemoryError) ends as InternalException "Caught exception from PartExtractor", and the pool is not stopped | classify the task's own throwable (the ExecutionException's cause): rethrow an IOException or InternalException, and stop the pool on OutOfMemoryError | high; not executed | Failures.ClassifyAsWritten | Failures.ClassifyTaskFailure |
