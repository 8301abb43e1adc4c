# PiSpigot in Dafny

A model of the Rabinowitz–Wagon spigot for π in `PiSpigot.java`, with proofs
about it.

The program keeps a mixed-radix array. It starts as `N*10/3+1` copies of 2,
which represents a truncated Wallis-type series for π:

    2 + 1/3 (2 + 2/5 (2 + 3/7 (2 + ...)))

Each of `N` transform passes does three things:

- It multiplies the represented number by ten.
- It keeps the fractional part in the array.
- It returns the integer part as a raw digit, usually in 0..9 and sometimes 10.

A deferred-commit ledger turns the raw digits into text. The ledger is a buffer of predigits and an append-only output.

- A raw digit below 9 commits the buffer, then holds the new digit.
- A 9 is held behind the buffer.
- A 10 carries one into every held digit, where 9 rolls over to 0. Then the buffer is committed and a 0 is held.

On iteration 1, when the raw digit is below 9, a decimal point is written straight to the output. After the last pass the buffer is committed and a line break ends the text.

Modules, one per concern of the source file:

- `JavaArith`:
  - Java's truncating `/` and `%` on `int`, with their defining facts.
  - Their agreement with Dafny's Euclidean operators on non-negative operands.
  - 32-bit wrap-around.
- `Limits`:
  - the array length `N*10/3+1`;
  - the `MAX_DIGITS_REQUESTED` bound;
  - the range check on the digit count;
  - the array-length expression as Java evaluates it in 32 bits.
- `DigitArray`:
  - the array set-up;
  - one transform pass, both as a reference definition by index (`NextDigits`, `RawDigit`) and as the in-place downward loop of the source (`TransformPass`);
  - the number the array represents (`Value`), with the proof that a pass multiplies it by ten.
- `Ledger`:
  - the predigit buffer and output as a state (`pending`, `output`) over `seq<char>`;
  - `flushDigits`, `addDigit` and `overflowDigits`;
  - the three-way dispatch on the raw digit (`Step`);
  - a whole stream of raw digits (`Feed`), with its counting, decimal-point, append-only and carry-correctness facts.
- `Spigot`:
  - the driver loop of `run` (`Run`) and the text it writes (`PiText`);
  - the end-to-end theorem relating the printed digits to the initial series.
- `ConcreteRuns`: whole runs for one and two digits, evaluated pass by pass.

Output to `System.out` is modelled as the returned text. `Run` returns the whole
text it would print, and `Ledger.State.output` is everything printed so far.

## Model

| member | source | states |
|---|---|---|
| JavaArith.TruncatedDivision | PiSpigot.java:126-127 | Java `/` rounds toward zero: the quotient's magnitude is the quotient of the magnitudes; quotient times divisor plus remainder rebuilds the dividend; the remainder is smaller than the divisor in magnitude and has the dividend's sign |
| JavaArith.AgreeOnNonNegative | PiSpigot.java:131-133 | on a non-negative dividend and positive divisor, Java's `/` and `%` equal Dafny's, and the remainder lies in [0, d) |
| JavaArith.Wrap32 | PiSpigot.java:97 | a Java `int` result: in [-2^31, 2^31-1], congruent to the exact value mod 2^32, and equal to it when it is in range |
| Limits.ArraySize | PiSpigot.java:97 | the array length N*10/3+1 is the least s with 10N < 3s, and it is at least 1 |
| Limits.MaxDigitsFit | PiSpigot.java:50-52 | the comment's promise, exactly: a count's array length fits in 2^31-1 if and only if the count is at most 644245094 |
| Limits.CheckDigitCount | PiSpigot.java:81-91 | the count is accepted exactly when it is positive and its array length fits an `int`; rejected as not positive exactly when it is <= 0; otherwise rejected as too large, reporting the maximum, whose array fits while the count's does not |
| Limits.ArraySizeAsWritten | PiSpigot.java:97 | the array length as the 32-bit expression computes it always lies in the `int` range |
| Limits.AsWrittenExactForSmallCounts | PiSpigot.java:97 | for counts up to 214748364 the 32-bit expression gives the true length N*10/3+1 |
| Limits.AsWrittenOverflows | PiSpigot.java:86-98 | the count 300000000 passes the range check, but the 32-bit length is negative |
| Limits.AsWrittenTruncatesAtMaximum | PiSpigot.java:86-98 | at the maximum accepted count, the 32-bit length is positive but shorter than the length the count needs |
| DigitArray.Init | PiSpigot.java:96-110 | a new array of length N*10/3+1 with every element 2 |
| DigitArray.TransformPass | PiSpigot.java:119-133 | the in-place downward loop leaves exactly the index-wise reference array `NextDigits` of the old contents, and returns the reference raw digit |
| DigitArray.DivisionIdentity | PiSpigot.java:123-127 | at each index i >= 1 the outgoing carry is a multiple of i, and new a[i] + (carry out / i)(2i+1) == 10 a[i] + carry in |
| DigitArray.CarryNonNegative | PiSpigot.java:121-128 | over a non-negative array every carry and every numerator 10 a[i] + carry is non-negative |
| DigitArray.PassRanges | PiSpigot.java:122-133 | after a pass over a non-negative array, a[i] lies in [0, 2i] for i >= 1 and a[0] in [0, 9]; the raw digit is non-negative; the array stays non-negative |
| DigitArray.PassSplits | PiSpigot.java:122-133 | the pass's new elements, carries and quotients satisfy SplitPass: at each i >= 1 the numerator splits as quotient times (2i+1) plus new element, nothing arrives at the top index, and the carry into i-1 is the quotient times i |
| DigitArray.TenTimesSuffix | PiSpigot.java:122-128 | for the suffix from index i >= 1, ten times its old represented value equals the quotient handed down times (2i+1), plus its new value |
| DigitArray.TenTimesValue | PiSpigot.java:130-133 | when index 0 splits its numerator by ten, ten times the whole old value is ten times that quotient plus the new value |
| DigitArray.PassScalesValue | PiSpigot.java:119-133 | one pass multiplies the represented number by ten: 10 Value(a) == 10 rawDigit + Value(new a) |
| Ledger.DigitChar | PiSpigot.java:163-165 | addDigit's character '0'+d is a digit character whose value is d |
| Ledger.DigitCharOfValue | PiSpigot.java:163-165 | every digit character is '0' plus its own value (the inverse direction) |
| Ledger.Overflow | PiSpigot.java:169-180 | the buffer keeps its length; each held digit becomes (d+1) mod 10, so 9 rolls over to 0, and the buffer stays within '0'..'9' |
| Ledger.OverflowIncrements | PiSpigot.java:169-180 | on a buffer d 9...9 with d < 9, the position-wise roll-over adds exactly one to the number the buffer denotes |
| Ledger.OverflowOfNines | PiSpigot.java:169-180 | on a buffer of nines only, the roll-over gives all zeros and the carried one is lost (the buffer was 10^k - 1) |
| Ledger.Flush | PiSpigot.java:156-159 | the buffer is empty afterwards and output followed by buffer is unchanged, so the output gains exactly the old buffer |
| Ledger.AddDigit | PiSpigot.java:163-165 | the output is unchanged; the buffer gains one character at its end, which is a digit of value d, and keeps its old contents before it |
| Ledger.OverflowDigits | PiSpigot.java:169-180 | the roll-over touches only the buffer: the output is unchanged, the buffer keeps its length and stays digits, and every held digit d becomes (d+1) mod 10, so 9 rolls over to 0 |
| Ledger.Step | PiSpigot.java:136-147 | the old output is a prefix of the new one, and the buffer is non-empty and holds only digits |
| Ledger.StepCases | PiSpigot.java:136-147 | the three branches: below 9 the buffer, then a point on iteration 1, is committed and the buffer becomes the new digit; on 9 the output is unchanged and '9' is held; above 9 the rolled-over buffer is committed and "0" is held |
| Ledger.StepCounts | PiSpigot.java:136-147 | committed digit characters plus held ones grow by exactly one per step; any non-digit a step commits is '.', only on iteration 1 with a value below 9, right after the old output and buffer |
| Ledger.StepKeepsHeldRun | PiSpigot.java:136-147 | the buffer keeps the shape d 9...9: every held digit after the first is a 9 |
| Ledger.StepValue | PiSpigot.java:136-147 | when the value is at most 10 and a carry meets a buffer that can absorb it, committed-plus-held digits read as a number become ten times the old number plus the value |
| Ledger.Feed | PiSpigot.java:117-147 | after any stream of raw values the buffer holds only digit characters |
| Ledger.FeedAppendOnly | PiSpigot.java:136-147 | output is append-only: feeding more values never changes what was committed |
| Ledger.FeedCounts | PiSpigot.java:117-147 | after k values, committed digit characters plus held digits number exactly k; the buffer has the shape d 9...9 and is non-empty once a value has arrived |
| Ledger.FeedPoint | PiSpigot.java:136-140 | the only non-digit ever committed is '.' at index 1, and it is there exactly when the value of iteration 1 was below 9 |
| Ledger.LaterStepKeepsPoint | PiSpigot.java:138-139 | a step on any iteration other than 1 commits only digits, so whether a point sits at index 1 is unchanged |
| Ledger.PointLostOnIterationOne | PiSpigot.java:136-147 | on iteration 1 with "3" held, a 10 commits "4" and holds "0" with no point, a 9 holds "39" and commits nothing, and a 1 commits "3." |
| Ledger.PointOnSecond | PiSpigot.java:136-140 | after two values the first digit has been committed, followed by '.' exactly when the second value was below 9 |
| Ledger.TextShape | PiSpigot.java:117-151 | the finished text for k values ends in a line break, holds exactly k digit characters, and its only other character is '.' at index 1, there exactly when the second value was below 9 |
| Ledger.FinishShape | PiSpigot.java:150-151 | the final flush and line break keep the digit count and the point position of the ledger state |
| Ledger.FeedValue | PiSpigot.java:136-147 | carry correctness: when every value is in 0..10 and every carry is absorbed, committed-plus-held digits read as one decimal number equal the raw stream's value with carries propagated |
| Ledger.CarryThroughNines | PiSpigot.java:141-146 | the values 3, 9, 9, 10 commit "400" and hold "0": the carry runs through both held nines into the 3 |
| Spigot.DigitsAfter | PiSpigot.java:117-133 | every array of a run keeps the length N*10/3+1 |
| Spigot.RunStaysNonNegative | PiSpigot.java:117-133 | every array of a run is non-negative, and so is every raw digit |
| Spigot.RawDigitsAt | PiSpigot.java:117-133 | the j-th raw digit of a run is the one the j-th pass yields |
| Spigot.PassStep | PiSpigot.java:119-133 | pass j of a run multiplies the array's value by ten and yields raw digit j |
| Spigot.SeriesExpansion | PiSpigot.java:117-133 | after k passes, 10^k times the initial value equals ten times the raw digits read as a decimal number, plus what is left in the array |
| Spigot.PiTextShape | PiSpigot.java:117-151 | the text of a run for N digits holds exactly N digit characters and ends in a line break; its only other character is '.' at index 1, there exactly when the second raw digit was below 9 |
| Spigot.PrintedDigitsValue | PiSpigot.java:117-151 | end to end, when every raw digit is in 0..10 and every carry is absorbed: with D the printed digits read as one number, 10 D == 10^N (initial series value) - (final array value) |
| Spigot.Run | PiSpigot.java:114-152 | the driver loop allocates, makes N passes and feeds each raw digit to the ledger; it returns PiText(N), which has N digit characters, a final line break, and no non-digit other than '.' at index 1 |
| ConcreteRuns.OneDigit | PiSpigot.java:117-151 | a run for one digit writes "3" and a line break, with no decimal point |
| ConcreteRuns.TwoDigits | PiSpigot.java:117-151 | a run for two digits writes "3.1" and a line break |
| ConcreteRuns.FirstPassOfTwo | PiSpigot.java:119-133 | the first pass over seven 2s leaves 0 2 2 4 3 4 7 and yields 3 |

## Left out

- `main`, `parseArgs` and `printHelp` (PiSpigot.java:55-92) are left out. They are command-line handling, integer parsing and `System.err` messages. The positive/maximum range check is kept as `Limits.CheckDigitCount`.
- Writing to `System.out` (PiSpigot.java:139, 151, 157) is modelled as the returned text, not as I/O.
- Ledger.Finish: models the line break of `System.out.println()` (PiSpigot.java:151) as "\n". Java writes the platform's line separator, which is "\r\n" on Windows.
- The null check after `new int[...]` (PiSpigot.java:99-103) is left out. Java allocation never returns null, so the branch is dead.
- Spigot.Run: accepts any N >= 0 and allocates N*10/3+1 in unbounded arithmetic. The range check `Limits.CheckDigitCount` and the 32-bit length are modelled apart from it.
- DigitArray.TransformPass: computes `digits[i] * 10 + carry` in unbounded integers. Java's 32-bit overflow of this expression for very large N is not modelled.
- Ledger.Overflow: is defined on digit characters only, with `(d+1) mod 10` per digit. The source maps '9' to '0' and any other character c to c+1. Every character `addDigit` buffers is a digit, so the difference is never reached.
- Ledger.FeedValue: takes as preconditions the series facts that every raw digit is in 0..10 and that a 10 always meets a buffer whose first digit is not 9. They rest on the convergence of the series and are not proved. The same goes for Spigot.PrintedDigitsValue.
- Spigot.PrintedDigitsValue: does not prove that the printed digits are those of π. That needs the value of the infinite series and a bound on the truncation error.
- Spigot.PrintedDigitsValue: writes 10^N as N multiplications by ten (`TimesPow10`). `Spigot.TimesPow10Scales` proves this equals 10^N.

## Findings

| source | as written | input that shows it | evidently intended | confidence | as-written member | corrected member |
|---|---|---|---|---|---|---|
| PiSpigot.java:97 | `digits_requested * 10 / 3 + 1` is evaluated in 32-bit `int`, so `digits_requested * 10` wraps for every count above 214748364. Yet the range check at lines 86-89 accepts counts up to 644245094. | 300000000 passes the check. `300000000 * 10` wraps to -1294967296, so the array length is -431655764 and `new int[...]` throws. | The length N*10/3+1 for every accepted count. The comment at lines 50-51 derives the maximum from that unbounded length. | high; not executed | Limits.AsWrittenOverflows | Limits.MaxDigitsFit |
| PiSpigot.java:97 | The same wrap, at the largest accepted count. | 644245094 gives a 32-bit length of 715827882, where 2147483647 is needed, so the series is cut off far earlier than the count requires. | The length N*10/3+1 = 2147483647, which fits an `int` by the comment's own bound. | high; not executed | Limits.AsWrittenTruncatesAtMaximum | Limits.MaxDigitsFit |

The rest of the model uses the corrected, unbounded length `Limits.ArraySize`.

A note on the decimal point: the comment at PiSpigot.java:138 says a point follows the leading "3". The code writes it only on the `digit < 9` branch of iteration 1 (PiSpigot.java:136-140), so a 9 or a 10 on iteration 1 would leave the point out. `Ledger.PointLostOnIterationOne` shows both cases: a 10 commits "4" with no point, and a 9 commits nothing. The model follows the code. `Spigot.PiTextShape` proves the point is present exactly when the second raw digit is below 9. `ConcreteRuns.TwoDigits` shows that an actual run yields 1 on iteration 1, so it prints "3.1" for two digits.
