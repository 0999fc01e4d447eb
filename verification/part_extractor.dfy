/**
  One part task: request the part's byte span with a `Range` header,
  insist on `206 Partial Content` (section 4.1 of RFC 7233), and queue the
  body with the numeric start parsed back from the `from` string.
 */
module PartExtractor {
  import opened Wrappers
  import opened JavaLong
  import opened Parts
  import opened PartRanges
  import opened RangeServer
  import opened Failures

  const PARTIAL_CONTENT_MISSING: string := "Did not retrieve partial content"

  /**
    The statuses whose answer to a GET carries no entity in the HTTP
    client: `getEntity()` is then null, and building the rejection message
    from the entity's length throws a `NullPointerException` instead.
   */
  predicate WithoutEntity(status: int)
  {
    status == SC_NO_CONTENT || status == SC_RESET_CONTENT || status == SC_NOT_MODIFIED
  }

  /**
    The outcome of one part task. `server` is the answer the remote gives
    to a GET carrying a `Range` value, whatever server it is; `fault` is a
    failure of the transport (the request, or reading the body). Any status
    but 206 is rejected, with a `NullPointerException` when the answer has
    no entity, and any 206 body is queued at the parsed start.
   */
  function Extract(server: string -> Response, fault: Option<Thrown>,
                   partIndex: Int, partCount: Int, range: Long, remoteSize: Long): (r: Result<PartCache, Thrown>)
    ensures fault.Some? ==> r == Err(fault.value)
    ensures r.Ok? <==> fault.None? && server(RangeHeader(partIndex, partCount, range, remoteSize)).status == SC_PARTIAL_CONTENT
    ensures var status := server(RangeHeader(partIndex, partCount, range, remoteSize)).status;
            fault.None? && status != SC_PARTIAL_CONTENT && !WithoutEntity(status)
            ==> r == Err(InternalException(PARTIAL_CONTENT_MISSING))
    ensures fault.None? && WithoutEntity(server(RangeHeader(partIndex, partCount, range, remoteSize)).status)
            ==> r == Err(NullPointerException)
    ensures r.Ok? ==> r.value == PartCache(server(RangeHeader(partIndex, partCount, range, remoteSize)).body,
                                           RangeStart(partIndex, range))
  {
    var from := FromText(partIndex, range);
    var to := ToText(partIndex, partCount, range, remoteSize);
    var response := server("bytes=" + from + "-" + to);
    if fault.Some? then Err(fault.value)
    else if WithoutEntity(response.status) then Err(NullPointerException)
    else if response.status != SC_PARTIAL_CONTENT then Err(InternalException(PARTIAL_CONTENT_MISSING))
    else Ok(PartCache(response.body, ParseLong(from).value))
  }

  /**
    `PartExtractor.call`: sends `header`, and on partial content appends
    exactly one part to the queue; on any failure the queue is untouched
    and the failure is what the task throws.
   */
  method Call(queue: PartQueue, server: string -> Response, fault: Option<Thrown>,
              partIndex: Int, partCount: Int, range: Long, remoteSize: Long)
    returns (header: string, failure: Option<Thrown>)
    modifies queue
    ensures header == RangeHeader(partIndex, partCount, range, remoteSize)
    ensures var r := Extract(server, fault, partIndex, partCount, range, remoteSize);
            && (failure.Some? <==> r.Err?)
            && (r.Err? ==> failure == Some(r.error) && queue.items == old(queue.items))
            && (r.Ok? ==> queue.items == old(queue.items) + [r.value])
  {
    var from := FromText(partIndex, range);
    var to := ToText(partIndex, partCount, range, remoteSize);
    header := "bytes=" + from + "-" + to;
    if fault.Some? {
      return header, fault;
    }
    var response := server(header);
    if WithoutEntity(response.status) {
      return header, Some(NullPointerException);
    }
    if response.status != SC_PARTIAL_CONTENT {
      return header, Some(InternalException(PARTIAL_CONTENT_MISSING));
    }
    queue.Add(PartCache(response.body, ParseLong(from).value));
    failure := None;
  }

  /**
    With satisfiable spans, a server holding `resource` answers part `i`
    with exactly the bytes from its start up to its end or the end of the
    resource, and the part is queued at its start.
   */
  lemma ServedSlice(resource: seq<Byte>, partIndex: Int, partCount: Int, range: Long)
    requires |resource| <= LONG_MAX && Satisfiable(partCount, |resource|, range)
    requires 1 <= partIndex <= partCount
    ensures var start := RangeStart(partIndex, range);
            var stop := PartStop(partIndex, partCount, range, |resource|);
            && 0 <= start < stop <= |resource|
            && Extract(Honouring(resource), None, partIndex, partCount, range, |resource|)
               == Ok(PartCache(resource[start..stop], start))
  {
    assert SpanSatisfiable(partIndex, partCount, |resource|, range);
    ExtractIsOutcome(resource, None, partIndex, partCount, range, |resource|);
  }

  /**
    The outcome of one part task in terms of its numeric span: a server
    honouring ranges returns partial content exactly when the span is a
    well-formed byte range that starts inside the resource.
   */
  function Outcome(resource: seq<Byte>, fault: Option<Thrown>,
                   partIndex: Int, partCount: Int, range: Long, remoteSize: Long): Result<PartCache, Thrown>
  {
    var start := RangeStart(partIndex, range);
    var end := RangeEnd(partIndex, partCount, range, remoteSize);
    if fault.Some? then Err(fault.value)
    else if 0 <= start <= end && start < |resource| then
      Ok(PartCache(resource[start..if end + 1 < |resource| then end + 1 else |resource|], start))
    else Err(InternalException(PARTIAL_CONTENT_MISSING))
  }

  /**
    Printing the span into the `Range` header and having the server parse
    it loses nothing: a negative position makes the header unreadable, and
    the server then answers 200, which the task rejects like any other
    status but 206.
   */
  lemma ExtractIsOutcome(resource: seq<Byte>, fault: Option<Thrown>,
                         partIndex: Int, partCount: Int, range: Long, remoteSize: Long)
    ensures Extract(Honouring(resource), fault, partIndex, partCount, range, remoteSize)
            == Outcome(resource, fault, partIndex, partCount, range, remoteSize)
  {
    var start := RangeStart(partIndex, range);
    var end := RangeEnd(partIndex, partCount, range, remoteSize);
    if start >= 0 && end >= 0 {
      ByteRangeRoundTrip(start, end);
      ReadableSpan(resource, fault, partIndex, partCount, range, remoteSize);
    } else {
      if start < 0 {
        SignedFirstUnreadable(LongToString(start), LongToString(end));
      } else {
        SignedLastUnreadable(LongToString(start), LongToString(end));
      }
      UnreadableSpan(resource, fault, partIndex, partCount, range, remoteSize);
    }
  }

  lemma ReadableSpan(resource: seq<Byte>, fault: Option<Thrown>,
                     partIndex: Int, partCount: Int, range: Long, remoteSize: Long)
    requires ParseByteRange(RangeHeader(partIndex, partCount, range, remoteSize))
             == Some((RangeStart(partIndex, range), RangeEnd(partIndex, partCount, range, remoteSize)))
    ensures Extract(Honouring(resource), fault, partIndex, partCount, range, remoteSize)
            == Outcome(resource, fault, partIndex, partCount, range, remoteSize)
  {
    var start := RangeStart(partIndex, range);
    var end := RangeEnd(partIndex, partCount, range, remoteSize);
    var header := RangeHeader(partIndex, partCount, range, remoteSize);
    ServedSpan(resource, header, start, end);
  }

  /** What the server answers to a readable range. */
  lemma ServedSpan(resource: seq<Byte>, header: string, start: int, end: int)
    requires ParseByteRange(header) == Some((start, end))
    ensures Serve(resource, header).status == SC_PARTIAL_CONTENT <==> start <= end && start < |resource|
    ensures start <= end && start < |resource| ==>
              Serve(resource, header).body == resource[start..if end + 1 < |resource| then end + 1 else |resource|]
  {
  }

  lemma UnreadableSpan(resource: seq<Byte>, fault: Option<Thrown>,
                       partIndex: Int, partCount: Int, range: Long, remoteSize: Long)
    requires ParseByteRange(RangeHeader(partIndex, partCount, range, remoteSize)).None?
    requires RangeStart(partIndex, range) < 0 || RangeEnd(partIndex, partCount, range, remoteSize) < 0
    ensures Extract(Honouring(resource), fault, partIndex, partCount, range, remoteSize)
            == Outcome(resource, fault, partIndex, partCount, range, remoteSize)
  {
  }

  /** One past the last byte a range-honouring server returns for the part. */
  function PartStop(partIndex: Int, partCount: Int, range: Long, size: Long): int
  {
    var end := RangeEnd(partIndex, partCount, range, size);
    if end + 1 < size then end + 1 else size
  }
}
