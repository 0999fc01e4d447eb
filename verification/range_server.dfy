/**
  An origin server that honours single byte-range requests as RFC 7233
  describes them. The downloader does not contain this code; it is the
  environment against which the end-to-end properties are stated.
 */
module RangeServer {
  import opened Wrappers
  import opened JavaLong

  const SC_OK: int := 200
  const SC_NO_CONTENT: int := 204
  const SC_RESET_CONTENT: int := 205
  const SC_PARTIAL_CONTENT: int := 206
  const SC_NOT_MODIFIED: int := 304
  const SC_RANGE_NOT_SATISFIABLE: int := 416

  datatype Response = Response(status: int, body: seq<Byte>)

  /** Position of the first `-` in `s`, or `|s|`. */
  function IndexOfDash(s: string): (d: nat)
    ensures d <= |s|
    ensures d < |s| ==> s[d] == '-'
    ensures forall i :: 0 <= i < d ==> s[i] != '-'
  {
    if s == [] || s[0] == '-' then 0 else 1 + IndexOfDash(s[1..])
  }

  /**
    A `Range` value of the form `bytes=<first>-<last>` (section 2.1 of
    RFC 7233), with both positions present.
   */
  function ParseByteRange(h: string): Option<(nat, nat)>
  {
    if |h| < 6 || h[..6] != "bytes=" then None
    else
      var spec := h[6..];
      var d := IndexOfDash(spec);
      if d == |spec| then None
      else
        var first, last := spec[..d], spec[d + 1..];
        if |first| == 0 || |last| == 0 || !AllDigits(first) || !AllDigits(last) then None
        else Some((DecimalValue(first), DecimalValue(last)))
  }

  /** The header the downloader writes is read back as the same two positions. */
  lemma ByteRangeRoundTrip(first: Long, last: Long)
    requires 0 <= first && 0 <= last
    ensures ParseByteRange("bytes=" + LongToString(first) + "-" + LongToString(last)) == Some((first, last))
  {
    var a, b := LongToString(first), LongToString(last);
    var h := "bytes=" + a + "-" + b;
    var spec := h[6..];
    assert h[..6] == "bytes=";
    assert spec == a + "-" + b;
    assert spec[|a|] == '-';
    assert IndexOfDash(spec) == |a|;
    assert spec[..|a|] == a && spec[|a| + 1..] == b;
    DecimalRoundTrip(first);
    DecimalRoundTrip(last);
  }

  /** A first position with a sign makes the range unreadable. */
  lemma SignedFirstUnreadable(a: string, b: string)
    requires |a| > 0 && a[0] == '-'
    ensures ParseByteRange("bytes=" + a + "-" + b).None?
  {
    var h := "bytes=" + a + "-" + b;
    assert h[..6] == "bytes=";
    assert h[6..][0] == '-';
    assert IndexOfDash(h[6..]) == 0;
  }

  /** So does a last position with a sign. */
  lemma SignedLastUnreadable(a: string, b: string)
    requires AllDigits(a) && |b| > 0 && b[0] == '-'
    ensures ParseByteRange("bytes=" + a + "-" + b).None?
  {
    var h := "bytes=" + a + "-" + b;
    var spec := h[6..];
    assert h[..6] == "bytes=";
    assert spec == a + "-" + b;
    assert spec[|a|] == '-';
    assert IndexOfDash(spec) == |a|;
    assert spec[|a| + 1..] == b;
    assert !IsDigit(b[0]);
  }

  /** The range-honouring server holding `resource`, as a function from `Range` value to answer. */
  function Honouring(resource: seq<Byte>): string -> Response
  {
    h => Serve(resource, h)
  }

  /**
    The server's answer to a GET with the given `Range` value: a range it
    cannot read, or one whose last position precedes its first, is ignored
    and the whole resource is sent with 200 (sections 2.1 and 3.1 of
    RFC 7233); a range starting at or past the end gets 416 (section 4.4);
    otherwise 206 with the requested bytes, the last position clamped to
    the end of the resource (sections 2.1 and 4.1).
   */
  function Serve(resource: seq<Byte>, rangeHeader: string): (r: Response)
    ensures r.status == SC_PARTIAL_CONTENT ==> |r.body| > 0
    ensures r.status == SC_OK || r.status == SC_PARTIAL_CONTENT || r.status == SC_RANGE_NOT_SATISFIABLE
  {
    match ParseByteRange(rangeHeader)
    case None => Response(SC_OK, resource)
    case Some((first, last)) =>
      if last < first then Response(SC_OK, resource)
      else if first >= |resource| then Response(SC_RANGE_NOT_SATISFIABLE, [])
      else
        var stop := if last + 1 < |resource| then last + 1 else |resource|;
        Response(SC_PARTIAL_CONTENT, resource[first..stop])
  }
}
