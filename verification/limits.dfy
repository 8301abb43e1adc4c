/**
  The digit-count bound: how long the mixed-radix array is for a requested
  digit count, the largest count whose array length still fits a Java `int`,
  and the range check applied to the count before any work is done.
 */
module Limits {
  import opened JavaArith

  /** The largest accepted digit count. */
  const MaxDigitsRequested: int := 644245094

  /** Length of the mixed-radix array for `n` requested digits: n*10/3 + 1. */
  function ArraySize(n: nat): (s: nat)
    ensures s >= 1
    ensures 3 * (s - 1) <= 10 * n < 3 * s
  {
    n * 10 / 3 + 1
  }

  /**
    The bound is exact: a digit count gets an array whose length fits a Java
    `int` precisely when it does not exceed MaxDigitsRequested.
   */
  lemma MaxDigitsFit(n: nat)
    ensures ArraySize(n) <= IntMax <==> n <= MaxDigitsRequested
  {
    if n <= MaxDigitsRequested {
      assert 10 * n <= 10 * MaxDigitsRequested;
    } else {
      assert 10 * n >= 10 * (MaxDigitsRequested + 1);
    }
  }

  /** The verdict of the range check on a requested digit count. */
  datatype CountCheck = Accepted(count: nat) | NotPositive | TooLarge(maximum: int)

  /**
    The range check on a requested digit count: it rejects a count that is
    not positive, and one whose array would not fit a Java `int`.
   */
  function CheckDigitCount(n: int): (r: CountCheck)
    ensures r.Accepted? <==> n >= 1 && ArraySize(n) <= IntMax
    ensures r.Accepted? ==> r.count == n
    ensures r.NotPositive? <==> n <= 0
    ensures r.TooLarge? ==> r.maximum == MaxDigitsRequested && ArraySize(r.maximum) <= IntMax < ArraySize(n)
  {
    if n <= 0 then NotPositive
    else if n > MaxDigitsRequested then
      MaxDigitsFit(n);
      MaxDigitsFit(MaxDigitsRequested);
      TooLarge(MaxDigitsRequested)
    else
      MaxDigitsFit(n);
      Accepted(n)
  }

  /**
    The array length exactly as the Java expression `digits_requested * 10 / 3 + 1`
    computes it: each operation on 32-bit `int`s, so `n * 10` wraps around.
   */
  function ArraySizeAsWritten(n: int): (s: int)
    requires IntMin <= n <= IntMax
    ensures IntMin <= s <= IntMax
  {
    Wrap32(Div(Wrap32(n * 10), 3) + 1)
  }

  /** For counts up to 214748364 the 32-bit computation is exact. */
  lemma AsWrittenExactForSmallCounts(n: nat)
    requires n <= 214748364
    ensures ArraySizeAsWritten(n) == ArraySize(n)
  {
    AgreeOnNonNegative(n * 10, 3);
  }

  /**
    A count the range check accepts, yet whose 32-bit array length is
    negative: `new int[...]` would throw instead of allocating.
   */
  lemma AsWrittenOverflows()
    ensures CheckDigitCount(300000000).Accepted?
    ensures ArraySizeAsWritten(300000000) < 0 < ArraySize(300000000)
  {
    MaxDigitsFit(300000000);
    assert Wrap32(3000000000) == -1294967296;
    assert Div(-1294967296, 3) == -431655765;
  }

  /**
    At the maximum itself the 32-bit length is positive but far shorter than
    the array the digit count needs.
   */
  lemma AsWrittenTruncatesAtMaximum()
    ensures CheckDigitCount(MaxDigitsRequested).Accepted?
    ensures 0 < ArraySizeAsWritten(MaxDigitsRequested) < ArraySize(MaxDigitsRequested)
  {
    MaxDigitsFit(MaxDigitsRequested);
    assert Wrap32(6442450940) == 2147483644;
    assert Div(2147483644, 3) == 715827881;
  }
}
