/**
  The download engine: configuration (constructors and builders), the
  HEAD probe that decides between a threaded ranged download and a direct
  copy, and `execute`, which pre-allocates the target, runs one part task
  per part, hands the queued parts to the writer, and classifies failures.
 */
module Downloader {
  import opened Wrappers
  import opened JavaLong
  import opened Parts
  import opened PartRanges
  import opened RangeServer
  import opened Failures
  import opened RandomAccess
  import PartExtractor
  import Writer

  /** Default minimum size, in bytes, for a threaded download. */
  const SPLIT_DEFAULT: Int := 10000000
  const NO_REMOTE: string := "No remote specified"

  /** A parsed `java.net.URL`: its text and its file part (`getFile()`). */
  datatype Url = Url(spec: string, file: string)

  /** The parts of a HEAD response the engine reads. */
  datatype HeadResponse = HeadResponse(status: int, acceptRanges: Option<string>, contentLength: Option<string>)

  /** What the probe leaves behind: whether HEAD was sent, the `downloadThreaded` flag, and `remoteSize`. */
  datatype Probe = Probe(headRequested: bool, downloadThreaded: bool, remoteSize: Long)

  datatype ExecOutcome =
    | DirectCopy
      /** The part indices submitted, the per-part range, and whether the writer finished without error. */
    | ThreadedCopy(submitted: seq<Int>, range: Long, writerCompleted: bool)

  /** `availableProcessors() < 4 ? 4 : availableProcessors()`. */
  function DefaultPartCount(availableProcessors: Int): (n: Int)
    ensures n >= 4 && n >= availableProcessors
    ensures n == 4 || n == availableProcessors
  {
    if availableProcessors < 4 then 4 else availableProcessors
  }

  predicate IsSeparator(c: char) { c == '/' || c == '\\' }

  /** `FilenameUtils.getName`: the text after the last `/` or `\`. */
  function BaseName(path: string): (name: string)
    ensures |name| <= |path| && path[|path| - |name|..] == name
    ensures forall i :: 0 <= i < |name| ==> !IsSeparator(name[i])
    ensures |name| < |path| ==> IsSeparator(path[|path| - |name| - 1])
  {
    if path == [] || IsSeparator(path[|path| - 1]) then []
    else BaseName(path[..|path| - 1]) + [path[|path| - 1]]
  }

  /** The file `execute` writes: the configured target, or the remote's file name when it is unset or empty. */
  function ResolvedTarget(target: Option<string>, remote: Url): (t: string)
    ensures target.Some? && target.value != [] ==> t == target.value
    ensures target.None? || target.value == [] ==> t == BaseName(remote.file)
  {
    if target.None? || |target.value| == 0 then BaseName(remote.file) else target.value
  }

  /**
    The HEAD probe. With `minimumSplit <= 0` no request is sent. Otherwise
    the flag is raised exactly when `Accept-Ranges` is `bytes` and a
    `Content-Length` is present, whose value must parse as a `long`
    (`NumberFormatException` otherwise). The status is only logged.
   */
  function ProbeRemote(minimumSplit: Int, head: HeadResponse): (r: Result<Probe, Error>)
    ensures r.Err? ==> r.error == NumberFormat
    ensures r.Ok? ==> r.value.headRequested == (minimumSplit > 0)
    ensures r.Ok? ==> (r.value.downloadThreaded <==>
                        minimumSplit > 0 && head.acceptRanges == Some("bytes") && head.contentLength.Some?)
    ensures r.Err? <==> minimumSplit > 0 && head.acceptRanges == Some("bytes") && head.contentLength.Some?
                        && ParseLong(head.contentLength.value).None?
    ensures r.Ok? && r.value.downloadThreaded ==> Some(r.value.remoteSize) == ParseLong(head.contentLength.value)
    ensures r.Ok? && !r.value.downloadThreaded ==> r.value.remoteSize == 0
  {
    if minimumSplit <= 0 then Ok(Probe(false, false, 0))
    else if head.acceptRanges != Some("bytes") || head.contentLength.None? then Ok(Probe(true, false, 0))
    else match ParseLong(head.contentLength.value)
      case None => Err(NumberFormat)
      case Some(size) => Ok(Probe(true, true, size))
  }

  /** `downloadThreaded && remoteSize > minimumSplit`. */
  predicate GoesThreaded(p: Probe, minimumSplit: Int)
  {
    p.downloadThreaded && p.remoteSize > minimumSplit
  }

  /**
    The threaded branch is taken exactly when splitting is enabled, the
    server accepts byte ranges, declares a length, and that length exceeds
    `minimumSplit`; the HEAD status plays no part.
   */
  lemma ThreadedDecision(minimumSplit: Int, head: HeadResponse, status: int)
    requires ProbeRemote(minimumSplit, head).Ok?
    ensures ProbeRemote(minimumSplit, head.(status := status)) == ProbeRemote(minimumSplit, head)
    ensures var p := ProbeRemote(minimumSplit, head).value;
            GoesThreaded(p, minimumSplit) <==>
              && minimumSplit > 0
              && head.acceptRanges == Some("bytes")
              && head.contentLength.Some?
              && ParseLong(head.contentLength.value).value > minimumSplit
  {
  }

  /**
    Failures of the threaded branch before any file is touched: `remoteSize /
    partCount` with no parts, or a pool of `partCount + 1` (an `int` sum)
    threads that is not positive.
   */
  function PoolCheck(partCount: Int): (e: Option<Error>)
    ensures e.None? <==> 1 <= partCount < INT_MAX
    ensures partCount == 0 ==> e == Some(Arithmetic)
  {
    if partCount == 0 then Some(Arithmetic)
    else if Wrap32(partCount + 1) <= 0 then Some(IllegalArgument)
    else None
  }

  /** The part indices `1..n` the engine submits. */
  function PartIndices(n: int): (s: seq<Int>)
    requires n <= INT_MAX
    ensures |s| == if n < 0 then 0 else n
    ensures forall k :: 0 <= k < |s| ==> s[k] == k + 1
  {
    if n <= 0 then [] else PartIndices(n - 1) + [n]
  }

  /** The content of `path` on `files`, empty when there is no such file. */
  function FileAt(files: map<string, seq<Byte>>, path: string): seq<Byte>
  {
    if path in files then files[path] else []
  }

  /** Everything one part task depends on, besides its index. */
  datatype PartJob = PartJob(resource: seq<Byte>, faults: map<Int, Thrown>, partCount: Int, range: Long, remoteSize: Long)
  {
    function Fault(i: Int): Option<Thrown> { if i in faults then Some(faults[i]) else None }

    function Run(i: Int): Result<PartCache, Thrown>
    {
      PartExtractor.Outcome(resource, Fault(i), i, partCount, range, remoteSize)
    }
  }

  /** What the tasks `xs` produce, in the order they run. */
  function Outcomes(job: PartJob, xs: seq<Int>): (rs: seq<Result<PartCache, Thrown>>)
    ensures |rs| == |xs|
  {
    if xs == [] then [] else Outcomes(job, xs[..|xs| - 1]) + [job.Run(xs[|xs| - 1])]
  }

  lemma {:induction false} OutcomesAt(job: PartJob, xs: seq<Int>)
    ensures forall k :: 0 <= k < |xs| ==> Outcomes(job, xs)[k] == job.Run(xs[k])
  {
    if xs != [] {
      var init := xs[..|xs| - 1];
      OutcomesAt(job, init);
      assert forall k :: 0 <= k < |init| ==> xs[k] == init[k];
    }
  }

  /** The parts the successful tasks among `rs` queue, in order. */
  function Queued(rs: seq<Result<PartCache, Thrown>>): seq<PartCache>
  {
    if rs == [] then []
    else Queued(rs[..|rs| - 1]) + if rs[|rs| - 1].Ok? then [rs[|rs| - 1].value] else []
  }

  /** The failure of the earliest failing task among `rs`, if any. */
  function FirstError(rs: seq<Result<PartCache, Thrown>>): Option<Thrown>
  {
    if rs == [] then None
    else
      var before := FirstError(rs[..|rs| - 1]);
      if before.Some? then before
      else if rs[|rs| - 1].Err? then Some(rs[|rs| - 1].error)
      else None
  }

  lemma AppendOutcome(rs: seq<Result<PartCache, Thrown>>, o: Result<PartCache, Thrown>)
    ensures Queued(rs + [o]) == Queued(rs) + if o.Ok? then [o.value] else []
    ensures FirstError(rs + [o]) == if FirstError(rs).Some? then FirstError(rs) else if o.Err? then Some(o.error) else None
  {
    assert (rs + [o])[..|rs|] == rs;
  }

  /** Without a failure every task queued exactly its own part. */
  lemma {:induction false} AllSucceeded(rs: seq<Result<PartCache, Thrown>>)
    requires FirstError(rs).None?
    ensures |Queued(rs)| == |rs|
    ensures forall k :: 0 <= k < |rs| ==> rs[k] == Ok(Queued(rs)[k])
  {
    if rs != [] {
      var init := rs[..|rs| - 1];
      AllSucceeded(init);
      assert forall k :: 0 <= k < |init| ==> rs[k] == init[k];
    }
  }

  /** The files, the queue, and the result after one `execute`. */
  datatype ExecState = ExecState(result: Result<ExecOutcome, Failure>, files: map<string, seq<Byte>>, queued: seq<PartCache>)

  /** The schedule runs each part index `1..partCount` exactly once. */
  predicate IsSchedule(order: seq<Int>, partCount: Int)
  {
    multiset(order) == multiset(PartIndices(partCount))
  }

  /**
    `execute` on the given configuration, HEAD response, remote resource,
    transport faults and task schedule, from the given files and queue.
   */
  function ExecuteSpec(remote: Url, target: Option<string>, partCount: Int, minimumSplit: Int,
                       head: HeadResponse, resource: seq<Byte>, faults: map<Int, Thrown>, order: seq<Int>,
                       files: map<string, seq<Byte>>, queued: seq<PartCache>): ExecState
    requires IsSchedule(order, partCount)
  {
    var t := ResolvedTarget(target, remote);
    match ProbeRemote(minimumSplit, head)
    case Err(e) => ExecState(Err(Failure(e, false)), files, queued)
    case Ok(p) =>
      if !GoesThreaded(p, minimumSplit) then ExecState(Ok(DirectCopy), files[t := resource], queued)
      else if PoolCheck(partCount).Some? then ExecState(Err(Failure(PoolCheck(partCount).value, false)), files, queued)
      else ThreadedSpec(t, partCount, p.remoteSize, resource, faults, order, files, queued)
  }

  /**
    `remoteSize / partCount`. Java's `/` truncates toward zero; for a
    non-negative dividend and a positive divisor that is the quotient
    pinned down here, whatever the rounding convention.
   */
  function PartRange(remoteSize: Long, partCount: Int): (range: Long)
    requires 0 <= remoteSize && 1 <= partCount
    ensures 0 <= range && range * partCount <= remoteSize < range * partCount + partCount
  {
    DivBounds(remoteSize, partCount);
    MulMonotone(1, partCount, remoteSize / partCount);
    remoteSize / partCount
  }

  /** The threaded branch of `execute`, once the pool has been created. */
  function ThreadedSpec(t: string, partCount: Int, remoteSize: Long, resource: seq<Byte>, faults: map<Int, Thrown>,
                        order: seq<Int>, files: map<string, seq<Byte>>, queued: seq<PartCache>): ExecState
    requires IsSchedule(order, partCount) && 1 <= partCount && 0 <= remoteSize
  {
    var range := PartRange(remoteSize, partCount);
    var job := PartJob(resource, faults, partCount, range, remoteSize);
    var preallocated := Resize(FileAt(files, t), remoteSize);
    var outcomes := Outcomes(job, order);
    var items := queued + Queued(outcomes);
    match FirstError(outcomes)
    case Some(e) => ExecState(Err(ClassifyAsWritten(e)), files[t := preallocated], items)
    case None =>
      ScheduleLength(order, partCount);
      AllSucceeded(outcomes);
      DrainSpec(t, partCount, range, preallocated, files[t := preallocated], items)
  }

  /** The writer's part of the threaded branch: it drains `partCount` parts from `items` into `preallocated`. */
  function DrainSpec(t: string, partCount: Int, range: Long, preallocated: seq<Byte>,
                     files: map<string, seq<Byte>>, items: seq<PartCache>): ExecState
    requires 1 <= partCount <= |items|
  {
    var j := Writer.FirstUnseekable(items[..partCount]);
    assert items[..partCount][..j] == items[..j];
    ExecState(Ok(ThreadedCopy(PartIndices(partCount), range, j == partCount)),
              files[t := ApplyAll(preallocated, items[..j])],
              items[if j == partCount then partCount else j + 1..])
  }

  lemma ScheduleLength(order: seq<Int>, partCount: Int)
    requires IsSchedule(order, partCount) && partCount >= 1
    ensures |order| == partCount
  {
    assert |multiset(order)| == |multiset(PartIndices(partCount))|;
  }

  /** The files on disk. */
  class Disk {
    var files: map<string, seq<Byte>>

    constructor (files: map<string, seq<Byte>>)
      ensures this.files == files
    {
      this.files := files;
    }
  }

  class JDownloader {
    var remote: Url
    var target: Option<string>
    var partCount: Int
    var minimumSplit: Int
    /** Maximum total connections of the pool, fixed at construction. */
    var maxTotal: Int
    const queue: PartQueue

    constructor (remote: Url, availableProcessors: Int)
      ensures this.remote == remote && target.None?
      ensures partCount == DefaultPartCount(availableProcessors)
      ensures minimumSplit == SPLIT_DEFAULT
      ensures maxTotal == Wrap32(partCount * 10)
      ensures fresh(queue) && queue.items == []
    {
      this.remote := remote;
      target := None;
      partCount := DefaultPartCount(availableProcessors);
      minimumSplit := SPLIT_DEFAULT;
      maxTotal := Wrap32(DefaultPartCount(availableProcessors) * 10);
      queue := new PartQueue();
    }

    /**
      `JDownloader(String)`: refuses a null or empty string with an
      `InternalException` before anything else; `parsed` is what `new URL`
      makes of the string (`None`: `MalformedURLException`, an `IOException`).
     */
    static method FromText(remote: Option<string>, parsed: Option<Url>, availableProcessors: Int)
      returns (r: Result<JDownloader, Error>)
      ensures remote.None? || remote.value == [] ==> r == Err(Internal(NO_REMOTE))
      ensures remote.Some? && remote.value != [] && parsed.None? ==> r == Err(IOError)
      ensures r.Ok? <==> remote.Some? && remote.value != [] && parsed.Some?
      ensures r.Ok? ==> fresh(r.value) && fresh(r.value.queue) && r.value.remote == parsed.value
                        && r.value.Configured(availableProcessors)
    {
      if remote.None? || |remote.value| == 0 {
        return Err(Internal(NO_REMOTE));
      }
      if parsed.None? {
        return Err(IOError);
      }
      var d := new JDownloader(parsed.value, availableProcessors);
      r := Ok(d);
    }

    /** `JDownloader(URL)`: refuses null with an `InternalException`. */
    static method FromUrl(remote: Option<Url>, availableProcessors: Int) returns (r: Result<JDownloader, Error>)
      ensures remote.None? ==> r == Err(Internal(NO_REMOTE))
      ensures r.Ok? <==> remote.Some?
      ensures r.Ok? ==> fresh(r.value) && fresh(r.value.queue) && r.value.remote == remote.value
                        && r.value.Configured(availableProcessors)
    {
      if remote.None? {
        return Err(Internal(NO_REMOTE));
      }
      var d := new JDownloader(remote.value, availableProcessors);
      r := Ok(d);
    }

    /** The defaults a new engine starts with. */
    predicate Configured(availableProcessors: Int)
      reads this, queue
    {
      && target.None?
      && partCount == DefaultPartCount(availableProcessors)
      && minimumSplit == SPLIT_DEFAULT
      && maxTotal == Wrap32(partCount * 10)
      && queue.items == []
    }

    method Target(target: Option<string>) returns (self: JDownloader)
      modifies this
      ensures self == this && this.target == target
      ensures remote == old(remote) && partCount == old(partCount) && minimumSplit == old(minimumSplit)
      ensures maxTotal == old(maxTotal)
    {
      this.target := target;
      self := this;
    }

    method MinimumSplit(minimumSplit: Int) returns (self: JDownloader)
      modifies this
      ensures self == this && this.minimumSplit == minimumSplit
      ensures remote == old(remote) && target == old(target) && partCount == old(partCount)
      ensures maxTotal == old(maxTotal)
    {
      this.minimumSplit := minimumSplit;
      self := this;
    }

    /** Changes the part count only; the connection pool keeps the size it got at construction. */
    method PartCount(partCount: Int) returns (self: JDownloader)
      modifies this
      ensures self == this && this.partCount == partCount
      ensures remote == old(remote) && target == old(target) && minimumSplit == old(minimumSplit)
      ensures maxTotal == old(maxTotal)
    {
      this.partCount := partCount;
      self := this;
    }

    /**
      `execute`. `head` is the HEAD response, `resource` the remote content
      served to GET requests, `faults` the transport failures of individual
      part tasks, and `order` the order in which the part tasks run.
     */
    method Execute(head: HeadResponse, resource: seq<Byte>, faults: map<Int, Thrown>, order: seq<Int>, disk: Disk)
      returns (r: Result<ExecOutcome, Failure>)
      requires IsSchedule(order, partCount)
      modifies this, queue, disk
      ensures target == Some(ResolvedTarget(old(target), remote))
      ensures remote == old(remote) && partCount == old(partCount) && minimumSplit == old(minimumSplit)
      ensures maxTotal == old(maxTotal)
      ensures ExecState(r, disk.files, queue.items)
              == ExecuteSpec(remote, old(target), partCount, minimumSplit, head, resource, faults, order,
                             old(disk.files), old(queue.items))
    {
      var t := ResolvedTarget(target, remote);
      target := Some(t);
      var probe := ProbeRemote(minimumSplit, head);
      if probe.Err? {
        return Err(Failure(probe.error, false));
      }
      var remoteSize := probe.value.remoteSize;
      if !GoesThreaded(probe.value, minimumSplit) {
        disk.files := disk.files[t := resource];
        return Ok(DirectCopy);
      }
      var poolError := PoolCheck(partCount);
      if poolError.Some? {
        return Err(Failure(poolError.value, false));
      }
      r := RunThreaded(t, remoteSize, resource, faults, order, disk);
    }

    /**
      The threaded branch of `execute`: pre-allocate the target, submit the
      part tasks `1..partCount`, run them in `order`, and on success let the
      writer drain the queue into the file.
     */
    method RunThreaded(t: string, remoteSize: Long, resource: seq<Byte>, faults: map<Int, Thrown>,
                       order: seq<Int>, disk: Disk) returns (r: Result<ExecOutcome, Failure>)
      requires IsSchedule(order, partCount) && 1 <= partCount && 0 <= remoteSize
      modifies queue, disk
      ensures ExecState(r, disk.files, queue.items)
              == ThreadedSpec(t, partCount, remoteSize, resource, faults, order, old(disk.files), old(queue.items))
    {
      var range := PartRange(remoteSize, partCount);

      var file := new RandomFile.Open(FileAt(disk.files, t));
      var resized := file.SetLength(remoteSize);
      disk.files := disk.files[t := file.content];

      var submitted: seq<Int> := [];
      var i := 1;
      while i <= partCount
        invariant 1 <= i <= partCount + 1
        invariant submitted == PartIndices(i - 1)
      {
        submitted := submitted + [i];
        i := i + 1;
      }
      assert submitted == PartIndices(partCount);

      var job := PartJob(resource, faults, partCount, range, remoteSize);
      ghost var q0 := queue.items;
      assert file.content == Resize(FileAt(old(disk.files), t), remoteSize);
      var failure := RunParts(queue, job, order);
      if failure.Some? {
        return Err(ClassifyAsWritten(failure.value));
      }

      ScheduleLength(order, partCount);
      ghost var outcomes := Outcomes(job, order);
      AllSucceeded(outcomes);
      r := Drain(queue, file, disk, t, partCount, range, submitted);
    }
  }

  /**
    The end of the threaded branch: the writer drains `partCount` parts
    into `file`, whose content then becomes the target's on `disk`.
   */
  method Drain(queue: PartQueue, file: RandomFile, disk: Disk, t: string, partCount: Int, range: Long,
               submitted: seq<Int>) returns (r: Result<ExecOutcome, Failure>)
    requires 1 <= partCount <= |queue.items| && submitted == PartIndices(partCount)
    modifies queue, file, disk
    ensures ExecState(r, disk.files, queue.items)
            == DrainSpec(t, partCount, range, old(file.content), old(disk.files), old(queue.items))
  {
    ghost var items := queue.items;
    ghost var j := Writer.FirstUnseekable(items[..partCount]);
    assert items[..partCount][..j] == items[..j];
    assert Writer.Iterations(partCount) == partCount;
    var written, byteCount := Writer.Call(queue, file, partCount);
    disk.files := disk.files[t := file.content];
    r := Ok(ThreadedCopy(submitted, range, written));
  }

  /**
    Runs the part tasks of `job` one after another in `order`; every
    success appends its part to `queue`, and the earliest failure is kept.
   */
  method RunParts(queue: PartQueue, job: PartJob, order: seq<Int>) returns (failure: Option<Thrown>)
    modifies queue
    ensures queue.items == old(queue.items) + Queued(Outcomes(job, order))
    ensures failure == FirstError(Outcomes(job, order))
  {
    ghost var done: seq<Result<PartCache, Thrown>> := [];
    failure := None;
    var k := 0;
    while k < |order|
      invariant 0 <= k <= |order| && done == Outcomes(job, order[..k])
      invariant queue.items == old(queue.items) + Queued(done)
      invariant failure == FirstError(done)
    {
      var thrown := RunPart(queue, job, order[k]);
      ghost var outcome := job.Run(order[k]);
      AppendOutcome(done, outcome);
      assert order[..k + 1][..k] == order[..k];
      done := done + [outcome];
      if failure.None? && thrown.Some? {
        failure := thrown;
      }
      k := k + 1;
    }
    assert order[..k] == order;
  }

  /** One part task of `job`, as `Future.get` reports it. */
  method RunPart(queue: PartQueue, job: PartJob, i: Int) returns (thrown: Option<Thrown>)
    modifies queue
    ensures thrown == if job.Run(i).Err? then Some(job.Run(i).error) else None
    ensures queue.items == old(queue.items) + if job.Run(i).Ok? then [job.Run(i).value] else []
  {
    var header;
    header, thrown := PartExtractor.Call(queue, Honouring(job.resource), job.Fault(i), i, job.partCount, job.range, job.remoteSize);
    PartExtractor.ExtractIsOutcome(job.resource, job.Fault(i), i, job.partCount, job.range, job.remoteSize);
  }
}
