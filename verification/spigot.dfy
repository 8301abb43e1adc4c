/**
  The run driver: allocate the array for `n` digits, make `n` transform
  passes, route each raw digit through the ledger, then commit what is still
  held and end the line.
 */
module Spigot {
  import opened Limits
  import opened DigitArray
  import opened Ledger

  /** The array after `k` passes of a run for `n` digits. */
  function DigitsAfter(n: nat, k: nat): (a: seq<int>)
    ensures |a| == ArraySize(n)
  {
    if k == 0 then InitialDigits(n) else NextDigits(DigitsAfter(n, k - 1))
  }

  /** The raw digits of the first `k` passes of a run for `n` digits. */
  function RawDigits(n: nat, k: nat): (vs: seq<int>)
    ensures |vs| == k
  {
    if k == 0 then [] else RawDigits(n, k - 1) + [RawDigit(DigitsAfter(n, k - 1))]
  }

  /** Every array of a run is non-negative, so every raw digit is too. */
  lemma {:induction false} RunStaysNonNegative(n: nat, k: nat)
    ensures NonNegative(DigitsAfter(n, k))
    ensures NonNegativeRaw(RawDigits(n, k))
  {
    if k > 0 {
      RunStaysNonNegative(n, k - 1);
      PassRanges(DigitsAfter(n, k - 1));
    }
  }

  /** The text a run for `n` digits writes. */
  function PiText(n: nat): seq<char> {
    RunStaysNonNegative(n, n);
    Finish(Feed(RawDigits(n, n)))
  }

  lemma RawDigitsPrefix(n: nat, k: nat)
    requires k >= 1
    ensures RawDigits(n, k)[..k - 1] == RawDigits(n, k - 1)
    ensures RawDigits(n, k)[k - 1] == RawDigit(DigitsAfter(n, k - 1))
  {
  }

  /**
    The text holds exactly `n` digit characters and ends in a line break;
    the one other character it may hold is a decimal point at index 1, which
    is there exactly when the second raw digit was below 9.
   */
  lemma PiTextShape(n: nat)
    ensures |PiText(n)| >= 1 && PiText(n)[|PiText(n)| - 1] == '\n'
    ensures |Digits(PiText(n))| == n
    ensures forall k :: 0 <= k < |PiText(n)| - 1 && !IsDigit(PiText(n)[k]) ==> k == 1 && PiText(n)[k] == '.'
    ensures (|PiText(n)| >= 2 && PiText(n)[1] == '.') <==> (n >= 2 && RawDigits(n, n)[1] < 9)
  {
    RunStaysNonNegative(n, n);
    TextShape(RawDigits(n, n));
  }

  /** The j-th raw digit of a run is the one the j-th pass yields. */
  lemma {:induction false} RawDigitsAt(n: nat, k: nat, j: nat)
    requires j < k
    ensures RawDigits(n, k)[j] == RawDigit(DigitsAfter(n, j))
  {
    RawDigitsPrefix(n, k);
    if j < k - 1 {
      RawDigitsAt(n, k - 1, j);
    }
  }

  /** Pass j of a run multiplies the array's value by ten and yields raw digit j. */
  lemma PassStep(n: nat, j: nat)
    ensures 10.0 * Value(DigitsAfter(n, j))
         == 10.0 * (RawDigit(DigitsAfter(n, j)) as real) + Value(DigitsAfter(n, j + 1))
  {
    var a := DigitsAfter(n, j);
    assert DigitsAfter(n, j + 1) == NextDigits(a);
    PassScalesValue(a);
  }

  /** `v` multiplied by ten, `k` times over. */
  function TimesPow10(k: nat, v: real): real {
    if k == 0 then v else 10.0 * TimesPow10(k - 1, v)
  }

  /** Multiplying by ten `k` times is multiplying by 10^k. */
  lemma {:induction false} TimesPow10Scales(k: nat, v: real)
    ensures TimesPow10(k, v) == (Pow10(k) as real) * v
  {
    if k > 0 {
      TimesPow10Scales(k - 1, v);
      assert Pow10(k) as real == 10.0 * (Pow10(k - 1) as real);
    }
  }

  /**
    The digits a run prints, read as one decimal number, are the truncated
    series the array starts with scaled by a power of ten: after `k` passes,
    10^k times the initial value is ten times the raw digits' value plus what
    is left in the array.
   */
  lemma {:induction false} SeriesExpansion(n: nat, k: nat)
    ensures TimesPow10(k, Value(InitialDigits(n)))
         == 10.0 * (RawVal(RawDigits(n, k)) as real) + Value(DigitsAfter(n, k))
  {
    if k > 0 {
      SeriesExpansion(n, k - 1);
      PassStep(n, k - 1);
      RawValStep(n, k);
      ExpansionStep(TimesPow10(k - 1, Value(InitialDigits(n))), TimesPow10(k, Value(InitialDigits(n))),
        RawVal(RawDigits(n, k - 1)), RawVal(RawDigits(n, k)), RawDigit(DigitsAfter(n, k - 1)),
        Value(DigitsAfter(n, k - 1)), Value(DigitsAfter(n, k)));
    }
  }

  /** The linear arithmetic of one more pass in the expansion. */
  lemma ExpansionStep(t: real, tk: real, r: int, rk: int, d: int, before: real, after: real)
    requires t == 10.0 * (r as real) + before
    requires 10.0 * before == 10.0 * (d as real) + after
    requires tk == 10.0 * t
    requires rk == 10 * r + d
    ensures tk == 10.0 * (rk as real) + after
  {
  }

  /** Each pass appends its raw digit as the new lowest decimal place. */
  lemma RawValStep(n: nat, k: nat)
    requires k >= 1
    ensures RawVal(RawDigits(n, k)) == 10 * RawVal(RawDigits(n, k - 1)) + RawDigit(DigitsAfter(n, k - 1))
  {
    RawDigitsPrefix(n, k);
  }

  /**
    End to end: when every raw digit is in 0..10 and every carry is absorbed,
    the printed digits read as a number N satisfy
    10 N == 10^n * (initial array value) - (final array value), with the
    power written as n multiplications by ten (see TimesPow10Scales).
   */
  lemma PrintedDigitsValue(n: nat)
    requires forall k :: 0 <= k < n ==> 0 <= RawDigits(n, n)[k] <= 10
    requires CarriesAbsorbed(RawDigits(n, n))
    ensures AllDigits(Digits(PiText(n)))
    ensures 10.0 * (Val(Digits(PiText(n))) as real)
         == TimesPow10(n, Value(InitialDigits(n))) - Value(DigitsAfter(n, n))
  {
    var vs := RawDigits(n, n);
    var s := Feed(vs);
    FeedValue(vs);
    SeriesExpansion(n, n);
    DigitsOfDigits(s.pending);
    DigitsAppend(s.output, s.pending);
    DigitsAppend(s.output + s.pending, "\n");
    assert Digits("\n") == [];
    assert PiText(n) == s.output + s.pending + "\n";
    assert Digits(PiText(n)) == Digits(s.output) + s.pending;
  }

  /**
    Runs the spigot for `n` digits and returns the text it writes: the first
    digit, a decimal point when the second raw digit is below 9, the other
    digits, and a line break.
   */
  method Run(n: nat) returns (text: seq<char>)
    ensures text == PiText(n)
    ensures |Digits(text)| == n
    ensures |text| >= 1 && text[|text| - 1] == '\n'
    ensures forall k :: 0 <= k < |text| - 1 && !IsDigit(text[k]) ==> k == 1 && text[k] == '.'
  {
    var digits := Init(n);
    var ledger := Empty;
    var iter := 0;
    while iter < n
      invariant 0 <= iter <= n
      invariant digits.Length == ArraySize(n)
      invariant digits[..] == DigitsAfter(n, iter)
      invariant NonNegativeRaw(RawDigits(n, iter))
      invariant ledger == Feed(RawDigits(n, iter))
    {
      var digit := TransformPass(digits);
      RawDigitsPrefix(n, iter + 1);
      RunStaysNonNegative(n, iter + 1);
      ledger := Step(ledger, iter, digit);
      iter := iter + 1;
    }
    text := Finish(ledger);
    PiTextShape(n);
  }
}
