/**
  Java's fixed-width integers and the decimal conversions the downloader
  relies on: `Long.toString` renders the start of a byte range and
  `Long.parseLong` reads it (and the Content-Length header) back.
 */
module JavaLong {
  import opened Wrappers

  const LONG_MIN: int := -0x8000_0000_0000_0000
  const LONG_MAX: int := 0x7FFF_FFFF_FFFF_FFFF
  const INT_MIN: int := -0x8000_0000
  const INT_MAX: int := 0x7FFF_FFFF

  /** A Java `long`. */
  type Long = x: int | LONG_MIN <= x <= LONG_MAX
  /** A Java `int`. */
  type Int = x: int | INT_MIN <= x <= INT_MAX
  /** A Java `byte`. */
  type Byte = b: int | -128 <= b < 128

  /**
    Two's-complement wrap-around of a `long` operation's exact result: the
    value congruent to `x` modulo 2^64 in the `long` range.
   */
  function Wrap64(x: int): (r: Long)
    ensures LONG_MIN <= x <= LONG_MAX ==> r == x
    decreases if x > LONG_MAX then x - LONG_MAX else if x < LONG_MIN then LONG_MIN - x else 0
  {
    if x > LONG_MAX then Wrap64(x - 0x1_0000_0000_0000_0000)
    else if x < LONG_MIN then Wrap64(x + 0x1_0000_0000_0000_0000)
    else x
  }

  /** Two's-complement wrap-around of an `int` operation's exact result, modulo 2^32. */
  function Wrap32(x: int): (r: Int)
    ensures INT_MIN <= x <= INT_MAX ==> r == x
    decreases if x > INT_MAX then x - INT_MAX else if x < INT_MIN then INT_MIN - x else 0
  {
    if x > INT_MAX then Wrap32(x - 0x1_0000_0000)
    else if x < INT_MIN then Wrap32(x + 0x1_0000_0000)
    else x
  }

  /** `Wrap64(x)` differs from `x` by a multiple `k` of 2^64. */
  lemma {:induction false} Wrap64Congruent(x: int) returns (k: int)
    ensures x - Wrap64(x) == k * 0x1_0000_0000_0000_0000
    decreases if x > LONG_MAX then x - LONG_MAX else if x < LONG_MIN then LONG_MIN - x else 0
  {
    if x > LONG_MAX {
      k := Wrap64Congruent(x - 0x1_0000_0000_0000_0000);
      k := k + 1;
    } else if x < LONG_MIN {
      k := Wrap64Congruent(x + 0x1_0000_0000_0000_0000);
      k := k - 1;
    } else {
      k := 0;
    }
  }

  /** `Wrap32(x)` differs from `x` by a multiple `k` of 2^32. */
  lemma {:induction false} Wrap32Congruent(x: int) returns (k: int)
    ensures x - Wrap32(x) == k * 0x1_0000_0000
    decreases if x > INT_MAX then x - INT_MAX else if x < INT_MIN then INT_MIN - x else 0
  {
    if x > INT_MAX {
      k := Wrap32Congruent(x - 0x1_0000_0000);
      k := k + 1;
    } else if x < INT_MIN {
      k := Wrap32Congruent(x + 0x1_0000_0000);
      k := k - 1;
    } else {
      k := 0;
    }
  }

  predicate IsDigit(c: char) { '0' <= c <= '9' }

  predicate AllDigits(s: string) { forall i :: 0 <= i < |s| ==> IsDigit(s[i]) }

  function DigitChar(d: nat): (c: char)
    requires d < 10
    ensures IsDigit(c) && c as int - '0' as int == d
  {
    ('0' as int + d) as char
  }

  /** The shortest decimal rendering of `n`: no sign, no leading zeros. */
  function NatToDecimal(n: nat): (s: string)
    ensures |s| > 0 && AllDigits(s)
    ensures s[0] == '0' <==> n == 0
  {
    if n < 10 then [DigitChar(n)] else NatToDecimal(n / 10) + [DigitChar(n % 10)]
  }

  /** The value of a string of decimal digits, most significant first. */
  function DecimalValue(s: string): (v: nat)
    requires AllDigits(s)
  {
    if |s| == 0 then 0
    else 10 * DecimalValue(s[..|s| - 1]) + (s[|s| - 1] as int - '0' as int)
  }

  lemma {:induction false} DecimalRoundTrip(n: nat)
    ensures DecimalValue(NatToDecimal(n)) == n
  {
    if n >= 10 {
      var s := NatToDecimal(n);
      assert s[..|s| - 1] == NatToDecimal(n / 10);
      DecimalRoundTrip(n / 10);
    }
  }

  /** `Long.toString(x)`: a minus sign for negative values, then the digits. */
  function LongToString(x: Long): (s: string)
    ensures |s| > 0
    ensures s[0] == '-' <==> x < 0
    ensures x >= 0 ==> AllDigits(s)
  {
    if x < 0 then "-" + NatToDecimal(-(x as int)) else NatToDecimal(x)
  }

  /**
    `Long.parseLong(s)`: an optional `+` or `-`, then at least one decimal
    digit; the value must fit in a `long`. `None` stands for the
    `NumberFormatException` the Java method throws.
   */
  function ParseLong(s: string): (r: Option<Long>)
    ensures |s| == 0 ==> r.None?
    ensures |s| > 0 && !IsDigit(s[0]) && s[0] != '-' && s[0] != '+' ==> r.None?
    ensures r.Some? ==> var body := if s[0] == '-' || s[0] == '+' then s[1..] else s;
                        0 < |body| && AllDigits(body)
    ensures AllDigits(s) && 0 < |s| && DecimalValue(s) <= LONG_MAX ==> r == Some(DecimalValue(s))
    ensures AllDigits(s) && 0 < |s| && DecimalValue(s) > LONG_MAX ==> r.None?
  {
    if |s| == 0 then None
    else
      var negative := s[0] == '-';
      var body := if s[0] == '-' || s[0] == '+' then s[1..] else s;
      if |body| == 0 || !AllDigits(body) then None
      else
        var v: int := if negative then -(DecimalValue(body) as int) else DecimalValue(body);
        if LONG_MIN <= v <= LONG_MAX then Some(v) else None
  }

  /** Printing a `long` and parsing it back yields the same value. */
  lemma LongRoundTrip(x: Long)
    ensures ParseLong(LongToString(x)) == Some(x)
  {
    var s := LongToString(x);
    if x < 0 {
      assert s[1..] == NatToDecimal(-(x as int));
      DecimalRoundTrip(-(x as int));
    } else {
      DecimalRoundTrip(x);
    }
  }
}
