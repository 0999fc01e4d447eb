/**
  End-to-end properties of `execute` against a server that honours byte
  ranges: whatever order the part tasks run in, the target ends up holding
  exactly the remote resource when it has more bytes than parts; with no
  more bytes than parts, some span is unsatisfiable and the threaded
  download fails.
 */
module Correctness {
  import opened Wrappers
  import opened JavaLong
  import opened Parts
  import opened PartRanges
  import opened Failures
  import opened RandomAccess
  import PartExtractor
  import Writer
  import opened Downloader

  /** A HEAD response that either omits the length or states the resource's true length. */
  predicate HonestHead(head: HeadResponse, resource: seq<Byte>)
  {
    |resource| <= LONG_MAX && (head.contentLength.None? || head.contentLength == Some(LongToString(|resource|)))
  }

  /** The part tasks of a fault-free download of `resource`. */
  predicate CleanJob(job: PartJob)
  {
    && job.faults == map[]
    && job.remoteSize == |job.resource|
    && Sized(job.partCount, job.remoteSize, job.range)
    && Satisfiable(job.partCount, job.remoteSize, job.range)
  }

  /** The part a range-honouring server returns for part `i`. */
  function Piece(job: PartJob, i: Int): (p: PartCache)
    requires CleanJob(job) && 1 <= i <= job.partCount
    ensures 0 <= p.index < p.End() <= |job.resource|
    ensures p.index == RangeStart(i, job.range)
    ensures p.cachedBytes == job.resource[p.index..p.End()]
  {
    assert SpanSatisfiable(i, job.partCount, job.remoteSize, job.range);
    var start := RangeStart(i, job.range);
    var stop := PartExtractor.PartStop(i, job.partCount, job.range, job.remoteSize);
    PartCache(job.resource[start..stop], start)
  }

  lemma ServedPiece(job: PartJob, i: Int)
    requires CleanJob(job) && 1 <= i <= job.partCount
    ensures job.Run(i) == Ok(Piece(job, i))
    ensures Piece(job, i).End() == PartExtractor.PartStop(i, job.partCount, job.range, job.remoteSize)
  {
    assert SpanSatisfiable(i, job.partCount, job.remoteSize, job.range);
  }

  predicate InParts(order: seq<Int>, partCount: Int)
  {
    forall k :: 0 <= k < |order| ==> 1 <= order[k] <= partCount
  }

  /** With every task succeeding, the queue receives the pieces in the order the tasks ran. */
  lemma {:induction false} AllServed(job: PartJob, order: seq<Int>)
    requires CleanJob(job) && InParts(order, job.partCount)
    ensures FirstError(Outcomes(job, order)).None?
    ensures |Queued(Outcomes(job, order))| == |order|
    ensures forall k :: 0 <= k < |order| ==> Queued(Outcomes(job, order))[k] == Piece(job, order[k])
  {
    if order != [] {
      var init := order[..|order| - 1];
      AllServed(job, init);
      ServedPiece(job, order[|order| - 1]);
      AppendOutcome(Outcomes(job, init), job.Run(order[|order| - 1]));
    }
  }

  /** Different parts' pieces share no file position. */
  lemma PiecesDisjoint(job: PartJob, a: Int, b: Int)
    requires CleanJob(job) && 1 <= a < b <= job.partCount
    ensures Piece(job, a).End() <= Piece(job, b).index
  {
    ServedPiece(job, a);
    Ordered(a, b, job.partCount, job.remoteSize, job.range);
  }

  lemma QueuedDisjoint(job: PartJob, order: seq<Int>, items: seq<PartCache>)
    requires CleanJob(job) && InParts(order, job.partCount)
    requires |items| == |order| && forall k :: 0 <= k < |order| ==> items[k] == Piece(job, order[k])
    ensures Disjoint(items)
  {
    forall p, q, x | p in items && q in items && p != q && p.Covers(x)
      ensures !q.Covers(x)
    {
      var kp :| 0 <= kp < |items| && items[kp] == p;
      var kq :| 0 <= kq < |items| && items[kq] == q;
      DistinctPieces(job, order[kp], order[kq], x);
    }
  }

  lemma DistinctPieces(job: PartJob, a: Int, b: Int, x: int)
    requires CleanJob(job) && 1 <= a <= job.partCount && 1 <= b <= job.partCount
    requires Piece(job, a) != Piece(job, b) && Piece(job, a).Covers(x)
    ensures !Piece(job, b).Covers(x)
  {
    if a < b {
      PiecesDisjoint(job, a, b);
    } else {
      PiecesDisjoint(job, b, a);
    }
  }

  /** The piece of some part covers each byte of the resource. */
  lemma PieceCovers(job: PartJob, x: int) returns (i: Int)
    requires CleanJob(job) && 0 <= x < |job.resource|
    ensures 1 <= i <= job.partCount && Piece(job, i).Covers(x)
  {
    i := Covered(x, job.partCount, job.remoteSize, job.range);
    ServedPiece(job, i);
  }

  lemma ScheduleContains(order: seq<Int>, partCount: Int, i: Int)
    requires IsSchedule(order, partCount) && 1 <= i <= partCount
    ensures i in order
  {
    assert PartIndices(partCount)[i - 1] == i;
    assert i in multiset(PartIndices(partCount));
  }

  lemma ScheduleInParts(order: seq<Int>, partCount: Int)
    requires IsSchedule(order, partCount)
    ensures InParts(order, partCount)
  {
    forall k | 0 <= k < |order|
      ensures 1 <= order[k] <= partCount
    {
      assert order[k] in multiset(PartIndices(partCount));
    }
  }

  lemma QueuedCovers(job: PartJob, order: seq<Int>, items: seq<PartCache>)
    requires CleanJob(job) && IsSchedule(order, job.partCount) && InParts(order, job.partCount)
    requires |items| == |order| && forall k :: 0 <= k < |order| ==> items[k] == Piece(job, order[k])
    ensures forall x :: 0 <= x < |job.resource| ==> CoveredBy(items, x)
  {
    forall x | 0 <= x < |job.resource|
      ensures CoveredBy(items, x)
    {
      var i := PieceCovers(job, x);
      ScheduleContains(order, job.partCount, i);
      var k :| 0 <= k < |order| && order[k] == i;
      assert items[k] in items;
    }
  }

  /**
    The threaded branch, with no faults and satisfiable spans: every part
    task succeeds, the writer takes every part, and the target holds the
    resource, for every order of the tasks.
   */
  lemma ThreadedIsExact(t: string, partCount: Int, resource: seq<Byte>, order: seq<Int>,
                        files: map<string, seq<Byte>>)
    requires IsSchedule(order, partCount) && 1 <= partCount && |resource| < LONG_MAX
    requires Satisfiable(partCount, |resource|, PartRange(|resource|, partCount))
    ensures var s := ThreadedSpec(t, partCount, |resource|, resource, map[], order, files, []);
            && s.result.Ok? && s.result.value == ThreadedCopy(PartIndices(partCount), PartRange(|resource|, partCount), true)
            && FileAt(s.files, t) == resource
            && s.queued == []
  {
    var range := PartRange(|resource|, partCount);
    var job := PartJob(resource, map[], partCount, range, |resource|);
    assert CleanJob(job);
    ScheduleInParts(order, partCount);
    ScheduleLength(order, partCount);
    AllServed(job, order);
    var items := Queued(Outcomes(job, order));
    assert [] + items == items;
    QueuedDisjoint(job, order, items);
    QueuedCovers(job, order, items);
    var preallocated := Resize(FileAt(files, t), |resource|);
    DrainIsExact(t, partCount, range, preallocated, files[t := preallocated], items, resource);
  }

  /** The writer, given one piece per part that together tile the resource, reassembles it. */
  lemma DrainIsExact(t: string, partCount: Int, range: Long, preallocated: seq<Byte>,
                     files: map<string, seq<Byte>>, items: seq<PartCache>, resource: seq<Byte>)
    requires 1 <= partCount == |items| && |preallocated| == |resource|
    requires forall k :: 0 <= k < |items| ==>
               0 <= items[k].index && items[k].End() <= |resource|
               && items[k].cachedBytes == resource[items[k].index..items[k].End()]
    requires Disjoint(items) && forall x :: 0 <= x < |resource| ==> CoveredBy(items, x)
    ensures DrainSpec(t, partCount, range, preallocated, files, items)
            == ExecState(Ok(ThreadedCopy(PartIndices(partCount), range, true)), files[t := resource], [])
  {
    assert items[..partCount] == items;
    var j := Writer.FirstUnseekable(items);
    assert j == partCount;
    assert items[..j] == items;
    Reassembles(resource, preallocated, items);
  }

  /**
    The download is exact. With an honest HEAD response, no transport
    faults, an empty queue and more bytes than parts, `execute`
    fails only on a part count the thread pool refuses; otherwise it
    leaves the target holding the remote resource, whichever branch it
    takes and in whatever order the part tasks run.
   */
  lemma DownloadIsExact(remote: Url, target: Option<string>, partCount: Int, minimumSplit: Int,
                        head: HeadResponse, resource: seq<Byte>, order: seq<Int>, files: map<string, seq<Byte>>)
    requires IsSchedule(order, partCount)
    requires HonestHead(head, resource) && |resource| < LONG_MAX && |resource| > partCount
    ensures var s := ExecuteSpec(remote, target, partCount, minimumSplit, head, resource, map[], order, files, []);
            && (s.result.Ok? ==> FileAt(s.files, ResolvedTarget(target, remote)) == resource && s.queued == [])
            && (s.result.Ok? && s.result.value.ThreadedCopy? ==> s.result.value.writerCompleted)
            && (s.result.Err? ==> PoolCheck(partCount).Some? && s.result.error == Failure(PoolCheck(partCount).value, false))
  {
    var t := ResolvedTarget(target, remote);
    if head.contentLength.Some? {
      LongRoundTrip(|resource|);
    }
    var probe := ProbeRemote(minimumSplit, head);
    assert probe.Ok?;
    if GoesThreaded(probe.value, minimumSplit) && PoolCheck(partCount).None? {
      assert probe.value.remoteSize == |resource|;
      var range := PartRange(|resource|, partCount);
      SatisfiableWhenLarge(partCount, |resource|, range);
      ThreadedIsExact(t, partCount, resource, order, files);
    }
  }

  /** Two failures of one shape: every task that fails without a fault fails alike. */
  lemma {:induction false} FirstErrorOf(rs: seq<Result<PartCache, Thrown>>, k: nat, e: Thrown)
    requires k < |rs| && rs[k] == Err(e)
    requires forall m :: 0 <= m < |rs| && rs[m].Err? ==> rs[m].error == e
    ensures FirstError(rs) == Some(e)
  {
    var init := rs[..|rs| - 1];
    if k < |init| {
      FirstErrorOf(init, k, e);
    } else if FirstError(init).Some? {
      FirstErrorIn(init);
    }
  }

  lemma {:induction false} FirstErrorIn(rs: seq<Result<PartCache, Thrown>>)
    requires FirstError(rs).Some?
    ensures exists m :: 0 <= m < |rs| && rs[m] == Err(FirstError(rs).value)
  {
    var init := rs[..|rs| - 1];
    if FirstError(init).Some? {
      FirstErrorIn(init);
      var m :| 0 <= m < |init| && init[m] == Err(FirstError(init).value);
      assert rs[m] == init[m];
    } else {
      assert rs[|rs| - 1] == Err(FirstError(rs).value);
    }
  }

  /**
    A resource of exactly one byte per part (two parts or more) that is
    larger than `minimumSplit`: the last part's span starts past the end,
    so its task throws "Did not retrieve partial content", whatever order
    the tasks run in, after the target has been pre-allocated. As written,
    `execute` reports that as the generic "Caught exception from
    PartExtractor"; the corrected classification would rethrow it.
   */
  lemma OneBytePerPartFails(remote: Url, target: Option<string>, partCount: Int, minimumSplit: Int,
                            head: HeadResponse, resource: seq<Byte>, order: seq<Int>, files: map<string, seq<Byte>>)
    requires IsSchedule(order, partCount) && 2 <= partCount < INT_MAX && |resource| == partCount
    requires head.acceptRanges == Some("bytes") && head.contentLength == Some(LongToString(|resource|))
    requires 0 < minimumSplit < |resource|
    ensures var s := ExecuteSpec(remote, target, partCount, minimumSplit, head, resource, map[], order, files, []);
            var job := PartJob(resource, map[], partCount, PartRange(|resource|, partCount), |resource|);
            var thrown := InternalException(PartExtractor.PARTIAL_CONTENT_MISSING);
            && FirstError(Outcomes(job, order)) == Some(thrown)
            && s.result == Err(Failure(Internal(CAUGHT_FROM_EXTRACTOR), false))
            && ClassifyTaskFailure(thrown) == Failure(Internal(PartExtractor.PARTIAL_CONTENT_MISSING), false)
            && |FileAt(s.files, ResolvedTarget(target, remote))| == |resource|
  {
    LongRoundTrip(|resource|);
    LastPartUnserved(resource, partCount, order);
  }

  /** With one byte per part, the first failure the tasks report is the last part's missing partial content. */
  lemma LastPartUnserved(resource: seq<Byte>, partCount: Int, order: seq<Int>)
    requires IsSchedule(order, partCount) && 2 <= partCount < INT_MAX && |resource| == partCount
    ensures var job := PartJob(resource, map[], partCount, PartRange(|resource|, partCount), |resource|);
            FirstError(Outcomes(job, order)) == Some(InternalException(PartExtractor.PARTIAL_CONTENT_MISSING))
  {
    var range := PartRange(|resource|, partCount);
    var job := PartJob(resource, map[], partCount, range, |resource|);
    var e := InternalException(PartExtractor.PARTIAL_CONTENT_MISSING);
    UnsatisfiableWhenOneBytePerPart(partCount, |resource|, range);
    var rs := Outcomes(job, order);
    OutcomesAt(job, order);
    ScheduleContains(order, partCount, partCount);
    var k :| 0 <= k < |order| && order[k] == partCount;
    assert rs[k] == Err(e);
    FirstErrorOf(rs, k, e);
  }

  /**
    A resource of fewer bytes than parts (three parts or more) that is
    larger than `minimumSplit`: `range` is 0, part 2 asks for the reversed
    span `[1, 0]`, so a task throws "Did not retrieve partial content",
    whatever order the tasks run in, after the target has been
    pre-allocated. As written, `execute` reports that as the generic
    "Caught exception from PartExtractor".
   */
  lemma FewerBytesThanPartsFail(remote: Url, target: Option<string>, partCount: Int, minimumSplit: Int,
                                head: HeadResponse, resource: seq<Byte>, order: seq<Int>, files: map<string, seq<Byte>>)
    requires IsSchedule(order, partCount) && partCount < INT_MAX && |resource| < partCount
    requires head.acceptRanges == Some("bytes") && head.contentLength == Some(LongToString(|resource|))
    requires 0 < minimumSplit < |resource|
    ensures var s := ExecuteSpec(remote, target, partCount, minimumSplit, head, resource, map[], order, files, []);
            var job := PartJob(resource, map[], partCount, PartRange(|resource|, partCount), |resource|);
            var thrown := InternalException(PartExtractor.PARTIAL_CONTENT_MISSING);
            && FirstError(Outcomes(job, order)) == Some(thrown)
            && s.result == Err(Failure(Internal(CAUGHT_FROM_EXTRACTOR), false))
            && |FileAt(s.files, ResolvedTarget(target, remote))| == |resource|
  {
    LongRoundTrip(|resource|);
    MiddlePartUnserved(resource, partCount, order);
  }

  /** With fewer bytes than parts, the first failure the tasks report is a missing partial content. */
  lemma MiddlePartUnserved(resource: seq<Byte>, partCount: Int, order: seq<Int>)
    requires IsSchedule(order, partCount) && 3 <= partCount < INT_MAX && 1 <= |resource| < partCount
    ensures var job := PartJob(resource, map[], partCount, PartRange(|resource|, partCount), |resource|);
            FirstError(Outcomes(job, order)) == Some(InternalException(PartExtractor.PARTIAL_CONTENT_MISSING))
  {
    var range := PartRange(|resource|, partCount);
    var job := PartJob(resource, map[], partCount, range, |resource|);
    var e := InternalException(PartExtractor.PARTIAL_CONTENT_MISSING);
    UnsatisfiableWhenFewerBytes(partCount, |resource|, range);
    var rs := Outcomes(job, order);
    OutcomesAt(job, order);
    ScheduleContains(order, partCount, 2);
    var k :| 0 <= k < |order| && order[k] == 2;
    assert rs[k] == Err(e);
    FirstErrorOf(rs, k, e);
  }

  /**
    The lost `IOException`, end to end: one part whose transport fails
    with an `IOException` while every other part is served makes the part
    tasks throw that `IOException`, yet `execute`, as written, throws the
    generic `InternalException` and does not stop the pool; the corrected
    classification rethrows the `IOException`.
   */
  lemma FaultLostAsWritten(remote: Url, target: Option<string>, partCount: Int, minimumSplit: Int,
                           head: HeadResponse, resource: seq<Byte>, order: seq<Int>, files: map<string, seq<Byte>>,
                           i: Int)
    requires IsSchedule(order, partCount) && 1 <= i <= partCount < INT_MAX
    requires HonestHead(head, resource) && head.acceptRanges == Some("bytes") && head.contentLength.Some?
    requires |resource| < LONG_MAX && |resource| > partCount && 0 < minimumSplit < |resource|
    ensures var faults := map[i := IOException];
            var s := ExecuteSpec(remote, target, partCount, minimumSplit, head, resource, faults, order, files, []);
            var job := PartJob(resource, faults, partCount, PartRange(|resource|, partCount), |resource|);
            && FirstError(Outcomes(job, order)) == Some(IOException)
            && s.result == Err(Failure(Internal(CAUGHT_FROM_EXTRACTOR), false))
            && ClassifyTaskFailure(IOException) == Failure(IOError, false)
  {
    LongRoundTrip(|resource|);
    OnlyFaultFails(resource, partCount, order, i);
  }

  /** With a single faulty part and every span satisfiable, the first failure the tasks report is that fault. */
  lemma OnlyFaultFails(resource: seq<Byte>, partCount: Int, order: seq<Int>, i: Int)
    requires IsSchedule(order, partCount) && 1 <= i <= partCount
    requires |resource| < LONG_MAX && |resource| > partCount
    ensures var job := PartJob(resource, map[i := IOException], partCount, PartRange(|resource|, partCount), |resource|);
            FirstError(Outcomes(job, order)) == Some(IOException)
  {
    var range := PartRange(|resource|, partCount);
    var faults := map[i := IOException];
    var job := PartJob(resource, faults, partCount, range, |resource|);
    var clean := PartJob(resource, map[], partCount, range, |resource|);
    SatisfiableWhenLarge(partCount, |resource|, range);
    assert CleanJob(clean);
    var rs := Outcomes(job, order);
    OutcomesAt(job, order);
    ScheduleInParts(order, partCount);
    ScheduleContains(order, partCount, i);
    var k :| 0 <= k < |order| && order[k] == i;
    forall m | 0 <= m < |rs| && rs[m].Err?
      ensures rs[m].error == IOException
    {
      if order[m] != i {
        ServedPiece(clean, order[m]);
      }
    }
    FirstErrorOf(rs, k, IOException);
  }
}
