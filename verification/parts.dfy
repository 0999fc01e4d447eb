/**
  A downloaded part (`PartCache`: the body bytes and the file offset they
  belong at) and the FIFO queue that carries parts from the extractors to
  the writer.
 */
module Parts {
  import opened JavaLong

  datatype PartCache = PartCache(cachedBytes: seq<Byte>, index: Long)
  {
    /** One past the last file position the part covers. */
    function End(): int { index + |cachedBytes| }

    /** The part's bytes land on file position `k`. */
    predicate Covers(k: int) { index <= k < End() }
  }

  /** Total number of bytes carried by a sequence of parts. */
  function TotalLength(ps: seq<PartCache>): nat
  {
    if ps == [] then 0 else TotalLength(ps[..|ps| - 1]) + |ps[|ps| - 1].cachedBytes|
  }

  /** The queue shared by the extractors (producers) and the writer (consumer). */
  class PartQueue {
    var items: seq<PartCache>

    constructor ()
      ensures items == []
    {
      items := [];
    }

    /** `add`: append at the tail. */
    method Add(p: PartCache)
      modifies this
      ensures items == old(items) + [p]
    {
      items := items + [p];
    }

    /** `take`: remove and return the head. */
    method Take() returns (p: PartCache)
      requires items != []
      modifies this
      ensures p == old(items)[0] && items == old(items)[1..]
    {
      p := items[0];
      items := items[1..];
    }
  }
}
