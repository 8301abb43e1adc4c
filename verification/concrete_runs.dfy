/**
  Whole runs for small digit counts, evaluated pass by pass: one digit gives
  "3", two digits give "3.1", each followed by a line break.
 */
module ConcreteRuns {
  import opened JavaArith
  import opened Limits
  import opened DigitArray
  import opened Ledger
  import opened Spigot

  /** The first pass over the seven 2s of a two-digit run yields 3. */
  lemma FirstPassOfTwo()
    ensures NextDigits([2, 2, 2, 2, 2, 2, 2]) == [0, 2, 2, 4, 3, 4, 7]
    ensures RawDigit([2, 2, 2, 2, 2, 2, 2]) == 3
  {
    var a := [2, 2, 2, 2, 2, 2, 2];
    assert Numerator(a, 6) == 20;
    assert Numerator(a, 5) == 26;
    assert Numerator(a, 4) == 30;
    assert Numerator(a, 3) == 32;
    assert Numerator(a, 2) == 32;
    assert Numerator(a, 1) == 32;
    assert Numerator(a, 0) == 30;
    assert NextDigits(a)[0] == 0;
    assert NextDigits(a)[1] == 2;
    assert NextDigits(a)[2] == 2;
    assert NextDigits(a)[3] == 4;
    assert NextDigits(a)[4] == 3;
    assert NextDigits(a)[5] == 4;
    assert NextDigits(a)[6] == 7;
    assert NextDigits(a) == [0, 2, 2, 4, 3, 4, 7];
    assert RawDigit(a) == Div(30, 10) == 3;
  }

  /** The second pass of a two-digit run yields 1. */
  lemma SecondPassOfTwo()
    ensures RawDigit([0, 2, 2, 4, 3, 4, 7]) == 1
  {
    var a := [0, 2, 2, 4, 3, 4, 7];
    assert Numerator(a, 6) == 70;
    assert Numerator(a, 5) == 70;
    assert Numerator(a, 4) == 60;
    assert Numerator(a, 3) == 64;
    assert Numerator(a, 2) == 47;
    assert Numerator(a, 1) == 38;
    assert Numerator(a, 0) == 12;
    assert RawDigit(a) == Div(12, 10) == 1;
  }

  /** A one-digit run prints the 3 alone, with no decimal point. */
  lemma OneDigit()
    ensures PiText(1) == "3\n"
  {
    var a := InitialDigits(1);
    assert a == [2, 2, 2, 2];
    assert CarryInto(a, 3) == 0;
    assert CarryInto(a, 2) == 6;
    assert CarryInto(a, 1) == 10;
    assert CarryInto(a, 0) == 10;
    assert RawDigit(a) == 3;
    assert RawDigits(1, 1) == [3];
    assert Feed([3]) == State("3", "");
  }

  /** The raw digits of a two-digit run are 3 and 1. */
  lemma RawDigitsOfTwo()
    ensures RawDigits(2, 2) == [3, 1]
  {
    assert DigitsAfter(2, 0) == [2, 2, 2, 2, 2, 2, 2];
    FirstPassOfTwo();
    assert DigitsAfter(2, 1) == [0, 2, 2, 4, 3, 4, 7];
    SecondPassOfTwo();
  }

  /** The ledger commits the 3 and the point when the 1 arrives on iteration 1. */
  lemma LedgerOfThreeOne()
    ensures Feed([3, 1]) == State("1", "3.")
  {
    assert [3, 1][..1] == [3];
    assert Feed([3]) == State("3", "");
  }

  /** A two-digit run prints 3, the decimal point, then 1. */
  lemma TwoDigits()
    ensures PiText(2) == "3.1\n"
  {
    RawDigitsOfTwo();
    LedgerOfThreeOne();
  }
}
