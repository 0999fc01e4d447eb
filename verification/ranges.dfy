/**
  Byte spans requested by the part extractors. Part `i` of `count` asks for
  the inclusive span `[RangeStart(i), RangeEnd(i)]` in a `Range` header of
  the form `bytes=<first>-<last>` (section 2.1 of RFC 7233). All arithmetic
  is Java `long`/`int` arithmetic, written with its wrap-around.
 */
module PartRanges {
  import opened Wrappers
  import opened JavaLong

  /** First byte of part `partIndex`: 0 for part 1, `(partIndex - 1) * range + 1` otherwise. */
  function RangeStart(partIndex: Int, range: Long): Long
  {
    if partIndex == 1 then 0 else Wrap64(Wrap64(Wrap32(partIndex - 1) * range) + 1)
  }

  /** Last byte of part `partIndex`: `partIndex * range`, or `remoteSize + 1` for the last part. */
  function RangeEnd(partIndex: Int, partCount: Int, range: Long, remoteSize: Long): Long
  {
    if partIndex == partCount then Wrap64(remoteSize + 1) else Wrap64(partIndex * range)
  }

  /**
    The `from` string of the extractor. Parsing it back gives the numeric
    start, which is the offset the part is queued with.
   */
  function FromText(partIndex: Int, range: Long): (s: string)
    ensures ParseLong(s) == Some(RangeStart(partIndex, range))
  {
    LongRoundTrip(RangeStart(partIndex, range));
    if partIndex == 1 then "0" else LongToString(RangeStart(partIndex, range))
  }

  /** The `to` string of the extractor. */
  function ToText(partIndex: Int, partCount: Int, range: Long, remoteSize: Long): (s: string)
    ensures ParseLong(s) == Some(RangeEnd(partIndex, partCount, range, remoteSize))
  {
    LongRoundTrip(RangeEnd(partIndex, partCount, range, remoteSize));
    LongToString(RangeEnd(partIndex, partCount, range, remoteSize))
  }

  /** The value of the `Range` header sent for one part. */
  function RangeHeader(partIndex: Int, partCount: Int, range: Long, remoteSize: Long): (h: string)
    ensures h == "bytes=" + LongToString(RangeStart(partIndex, range)) + "-"
                 + LongToString(RangeEnd(partIndex, partCount, range, remoteSize))
  {
    assert partIndex == 1 ==> FromText(partIndex, range) == LongToString(0);
    "bytes=" + FromText(partIndex, range) + "-" + ToText(partIndex, partCount, range, remoteSize)
  }

  /**
    The conditions under which the engine creates extractors: at least one
    part, a size whose `+ 1` does not overflow, and `range` the quotient of
    `remoteSize` by `partCount` (the largest count of whole parts of that
    many bytes that fit).
   */
  predicate Sized(partCount: Int, remoteSize: Long, range: Long)
  {
    && 1 <= partCount && 0 <= remoteSize < LONG_MAX
    && 0 <= range && range * partCount <= remoteSize < range * partCount + partCount
  }

  lemma MulMonotone(a: int, b: int, c: int)
    requires 0 <= a <= b && 0 <= c
    ensures a * c <= b * c
  {
    assert b * c - a * c == (b - a) * c;
  }

  /** No part index multiplies `range` past the size. */
  lemma PartProductBound(k: int, partCount: Int, remoteSize: Long, range: Long)
    requires Sized(partCount, remoteSize, range) && 0 <= k <= partCount
    ensures 0 <= k * range <= remoteSize
  {
    MulMonotone(k, partCount, range);
    assert partCount * range <= remoteSize;
  }

  /** Within the engine's sizing, part `i` starts at 0 or `(i - 1) * range + 1`, exactly. */
  lemma StartValue(partIndex: Int, partCount: Int, remoteSize: Long, range: Long)
    requires Sized(partCount, remoteSize, range) && 1 <= partIndex <= partCount
    ensures RangeStart(partIndex, range) == if partIndex == 1 then 0 else (partIndex - 1) * range + 1
  {
    PartProductBound(partIndex - 1, partCount, remoteSize, range);
  }

  /** Within the engine's sizing, part `i` ends at `i * range`, and the last part at `remoteSize + 1`. */
  lemma EndValue(partIndex: Int, partCount: Int, remoteSize: Long, range: Long)
    requires Sized(partCount, remoteSize, range) && 1 <= partIndex <= partCount
    ensures RangeEnd(partIndex, partCount, range, remoteSize)
            == if partIndex == partCount then remoteSize + 1 else partIndex * range
  {
    PartProductBound(partIndex, partCount, remoteSize, range);
  }

  /** Adjacent parts meet: each part starts one byte after the previous one ends. */
  lemma Contiguous(partIndex: Int, partCount: Int, remoteSize: Long, range: Long)
    requires Sized(partCount, remoteSize, range) && 1 <= partIndex < partCount
    ensures RangeEnd(partIndex, partCount, range, remoteSize) + 1 == RangeStart(partIndex + 1, range)
  {
    EndValue(partIndex, partCount, remoteSize, range);
    StartValue(partIndex + 1, partCount, remoteSize, range);
  }

  /** Earlier parts end strictly before later parts start, so no byte is requested twice. */
  lemma Ordered(i: Int, j: Int, partCount: Int, remoteSize: Long, range: Long)
    requires Sized(partCount, remoteSize, range) && 1 <= i < j <= partCount
    ensures RangeEnd(i, partCount, range, remoteSize) < RangeStart(j, range)
  {
    EndValue(i, partCount, remoteSize, range);
    StartValue(j, partCount, remoteSize, range);
    OrderedArithmetic(i, j, range);
  }

  lemma OrderedArithmetic(i: int, j: int, range: int)
    requires 1 <= i < j && 0 <= range
    ensures i * range < (j - 1) * range + 1
  {
    MulMonotone(i, j - 1, range);
  }

  lemma DivBounds(x: int, d: int)
    requires 0 <= x && 0 < d
    ensures (x / d) * d <= x < (x / d) * d + d
  {
  }

  lemma MulSucc(q: int, c: int)
    ensures (q + 1) * c == q * c + c
  {
  }

  /** Byte `b >= 1` is in the window `[q * range + 1, (q + 1) * range]` of its quotient `q`. */
  lemma QuotientWindow(b: int, range: int) returns (q: nat)
    requires 1 <= b && 0 < range
    ensures q * range + 1 <= b <= (q + 1) * range
  {
    q := (b - 1) / range;
    DivBounds(b - 1, range);
    MulSucc(q, range);
  }

  /** Byte `b >= 1` lies in part `(b - 1) / range + 1`, or in the last part when that index is too large. */
  lemma CoveredAtQuotient(b: int, partCount: Int, remoteSize: Long, range: Long) returns (i: Int)
    requires Sized(partCount, remoteSize, range) && 1 <= b <= remoteSize + 1 && range > 0
    ensures 1 <= i <= partCount
    ensures RangeStart(i, range) <= b <= RangeEnd(i, partCount, range, remoteSize)
  {
    var q := QuotientWindow(b, range);
    if q + 1 < partCount {
      i := q + 1;
      StartValue(i, partCount, remoteSize, range);
      EndValue(i, partCount, remoteSize, range);
    } else {
      i := partCount;
      StartValue(i, partCount, remoteSize, range);
      EndValue(i, partCount, remoteSize, range);
      MulMonotone(partCount - 1, q, range);
    }
  }

  /** With `range == 0` every byte from 1 on lies in the last part. */
  lemma CoveredByLast(b: int, partCount: Int, remoteSize: Long, range: Long)
    requires Sized(partCount, remoteSize, range) && 1 <= b <= remoteSize + 1 && range == 0
    ensures RangeStart(partCount, range) <= b <= RangeEnd(partCount, partCount, range, remoteSize)
  {
    StartValue(partCount, partCount, remoteSize, range);
    EndValue(partCount, partCount, remoteSize, range);
  }

  /** Every byte position in `[0, remoteSize + 1]` is requested by some part. */
  lemma Covered(b: int, partCount: Int, remoteSize: Long, range: Long) returns (i: Int)
    requires Sized(partCount, remoteSize, range) && 0 <= b <= remoteSize + 1
    ensures 1 <= i <= partCount
    ensures RangeStart(i, range) <= b <= RangeEnd(i, partCount, range, remoteSize)
  {
    if b == 0 {
      i := 1;
      EndValue(i, partCount, remoteSize, range);
    } else if range == 0 {
      i := partCount;
      CoveredByLast(b, partCount, remoteSize, range);
    } else {
      i := CoveredAtQuotient(b, partCount, remoteSize, range);
    }
  }

  /**
    Every part's span is non-empty and starts inside the resource, so a
    server honouring ranges can answer each request with partial content.
   */
  predicate Satisfiable(partCount: Int, remoteSize: Long, range: Long)
  {
    forall i: Int :: 1 <= i <= partCount ==> SpanSatisfiable(i, partCount, remoteSize, range)
  }

  predicate SpanSatisfiable(i: Int, partCount: Int, remoteSize: Long, range: Long)
  {
    0 <= RangeStart(i, range) <= RangeEnd(i, partCount, range, remoteSize) && RangeStart(i, range) < remoteSize
  }

  lemma SpanArithmetic(i: int, partCount: int, remoteSize: int, range: int)
    requires 1 <= i <= partCount && 1 <= range && partCount * range <= remoteSize && partCount < remoteSize
    ensures var start := if i == 1 then 0 else (i - 1) * range + 1;
            var end := if i == partCount then remoteSize + 1 else i * range;
            0 <= start <= end && start < remoteSize
  {
    MulSucc(partCount - 1, range);
    MulMonotone(1, partCount, range);
    if i > 1 {
      MulMonotone(i - 1, partCount - 1, range);
      MulSucc(i - 1, range);
    }
  }

  lemma PartSpanFits(i: Int, partCount: Int, remoteSize: Long, range: Long)
    requires Sized(partCount, remoteSize, range) && partCount < remoteSize && 1 <= i <= partCount
    ensures SpanSatisfiable(i, partCount, remoteSize, range)
  {
    StartValue(i, partCount, remoteSize, range);
    EndValue(i, partCount, remoteSize, range);
    PartProductBound(partCount, partCount, remoteSize, range);
    assert range >= 1;
    SpanArithmetic(i, partCount, remoteSize, range);
  }

  /**
    A resource larger than the part count always yields satisfiable spans:
    `range` is then at least 1, and the last part starts at
    `(partCount - 1) * range + 1`, which is below `remoteSize`.
   */
  lemma SatisfiableWhenLarge(partCount: Int, remoteSize: Long, range: Long)
    requires Sized(partCount, remoteSize, range) && remoteSize > partCount
    ensures Satisfiable(partCount, remoteSize, range)
  {
    forall i: Int | 1 <= i <= partCount
      ensures SpanSatisfiable(i, partCount, remoteSize, range)
    {
      PartSpanFits(i, partCount, remoteSize, range);
    }
  }

  /**
    With one byte per part the last span starts at `remoteSize`, one past
    the final byte, so no server can return partial content for it.
   */
  lemma UnsatisfiableWhenOneBytePerPart(partCount: Int, remoteSize: Long, range: Long)
    requires Sized(partCount, remoteSize, range) && 2 <= partCount && remoteSize == partCount
    ensures RangeStart(partCount, range) == remoteSize
    ensures !Satisfiable(partCount, remoteSize, range)
  {
    assert range == 1 by {
      if range >= 2 {
        MulMonotone(2, range, partCount);
      }
    }
    StartValue(partCount, partCount, remoteSize, range);
    assert !SpanSatisfiable(partCount, partCount, remoteSize, range);
  }

  /**
    Fewer bytes than parts: `range` is 0, so every middle part asks for
    the reversed span `[1, 0]`, and with three parts or more part 2 is
    one of them; an empty resource leaves even part 1 unsatisfiable.
   */
  lemma UnsatisfiableWhenFewerBytes(partCount: Int, remoteSize: Long, range: Long)
    requires Sized(partCount, remoteSize, range) && remoteSize < partCount
    ensures range == 0
    ensures 3 <= partCount ==> RangeStart(2, range) == 1 && RangeEnd(2, partCount, range, remoteSize) == 0
    ensures !Satisfiable(partCount, remoteSize, range)
  {
    assert range == 0 by {
      if range >= 1 {
        MulMonotone(1, range, partCount);
      }
    }
    if remoteSize == 0 {
      StartValue(1, partCount, remoteSize, range);
      assert !SpanSatisfiable(1, partCount, remoteSize, range);
    } else {
      StartValue(2, partCount, remoteSize, range);
      EndValue(2, partCount, remoteSize, range);
      assert !SpanSatisfiable(2, partCount, remoteSize, range);
    }
  }

  /**
    Under the engine's sizing the spans are satisfiable exactly when the
    resource has more bytes than there are parts, or is the single byte
    of a single part.
   */
  lemma SatisfiableExactly(partCount: Int, remoteSize: Long, range: Long)
    requires Sized(partCount, remoteSize, range)
    ensures Satisfiable(partCount, remoteSize, range) <==> partCount < remoteSize || partCount == remoteSize == 1
  {
    if partCount < remoteSize {
      SatisfiableWhenLarge(partCount, remoteSize, range);
    } else if partCount == remoteSize == 1 {
      StartValue(1, partCount, remoteSize, range);
      EndValue(1, partCount, remoteSize, range);
      assert SpanSatisfiable(1, partCount, remoteSize, range);
    } else if partCount == remoteSize {
      UnsatisfiableWhenOneBytePerPart(partCount, remoteSize, range);
    } else {
      UnsatisfiableWhenFewerBytes(partCount, remoteSize, range);
    }
  }
}
