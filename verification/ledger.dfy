/**
  The deferred-commit ledger: a buffer of predigits that are not yet final,
  and the append-only output they are eventually committed to.

  A raw value below 9 commits the buffer and holds the new digit; a 9 is held
  behind the buffer; anything larger carries one into every held digit
  (9 rolls over to 0), commits them and holds a 0.
 */
module Ledger {

  // ---------------------------------------------------------------------------
  // Digits as characters
  // ---------------------------------------------------------------------------

  predicate IsDigit(c: char) {
    '0' <= c <= '9'
  }

  predicate AllDigits(s: seq<char>) {
    forall k :: 0 <= k < |s| ==> IsDigit(s[k])
  }

  function DigitValue(c: char): (d: nat)
    requires IsDigit(c)
    ensures d <= 9
  {
    c as int - '0' as int
  }

  /** The character '0' + d of a digit value 0..9, the inverse of DigitValue. */
  function DigitChar(d: int): (c: char)
    requires 0 <= d <= 9
    ensures IsDigit(c) && DigitValue(c) == d
  {
    ('0' as int + d) as char
  }

  lemma DigitCharOfValue(c: char)
    requires IsDigit(c)
    ensures DigitChar(DigitValue(c)) == c
  {
  }

  /** The digit characters of `s`, in order, with everything else dropped. */
  function Digits(s: seq<char>): (ds: seq<char>)
    ensures AllDigits(ds) && |ds| <= |s|
  {
    if s == [] then []
    else if IsDigit(s[|s| - 1]) then Digits(s[..|s| - 1]) + [s[|s| - 1]]
    else Digits(s[..|s| - 1])
  }

  lemma {:induction false} DigitsAppend(s: seq<char>, t: seq<char>)
    ensures Digits(s + t) == Digits(s) + Digits(t)
    decreases |t|
  {
    if t == [] {
      assert s + t == s;
    } else {
      var t' := t[..|t| - 1];
      assert (s + t)[..|s + t| - 1] == s + t';
      DigitsAppend(s, t');
    }
  }

  lemma {:induction false} DigitsOfDigits(s: seq<char>)
    requires AllDigits(s)
    ensures Digits(s) == s
    decreases |s|
  {
    if s != [] {
      DigitsOfDigits(s[..|s| - 1]);
    }
  }

  /** The number a string of digit characters denotes in decimal. */
  function Val(s: seq<char>): nat
    requires AllDigits(s)
  {
    if s == [] then 0 else 10 * Val(s[..|s| - 1]) + DigitValue(s[|s| - 1])
  }

  function Pow10(k: nat): (p: nat)
    ensures p >= 1
  {
    if k == 0 then 1 else 10 * Pow10(k - 1)
  }

  lemma {:induction false} ValAppend(s: seq<char>, t: seq<char>)
    requires AllDigits(s) && AllDigits(t)
    ensures AllDigits(s + t)
    ensures Val(s + t) == Val(s) * Pow10(|t|) + Val(t)
    decreases |t|
  {
    if t == [] {
      assert s + t == s;
    } else {
      var t' := t[..|t| - 1];
      assert (s + t)[..|s + t| - 1] == s + t';
      ValAppend(s, t');
      var d := DigitValue(t[|t| - 1]);
      assert Val(s + t) == 10 * Val(s + t') + d;
      assert Val(t) == 10 * Val(t') + d;
      assert Pow10(|t|) == 10 * Pow10(|t'|);
      ShiftDigit(Val(s), Pow10(|t'|), Val(t'), d);
    }
  }

  /** Appending one digit to x * p + y shifts both parts one place. */
  lemma ShiftDigit(x: int, p: int, y: int, d: int)
    ensures 10 * (x * p + y) + d == x * (10 * p) + (10 * y + d)
  {
  }

  // ---------------------------------------------------------------------------
  // The carry
  // ---------------------------------------------------------------------------

  /** One held digit after a carry: 9 rolls over to 0, any other digit goes up by one. */
  function Bump(c: char): (b: char)
    requires IsDigit(c)
    ensures IsDigit(b)
    ensures DigitValue(b) == (DigitValue(c) + 1) % 10
  {
    if c == '9' then '0' else (c as int + 1) as char
  }

  /** Every held digit after a carry, position by position. */
  function Overflow(p: seq<char>): (q: seq<char>)
    requires AllDigits(p)
    ensures |q| == |p| && AllDigits(q)
    ensures forall k :: 0 <= k < |p| ==> DigitValue(q[k]) == (DigitValue(p[k]) + 1) % 10
  {
    seq(|p|, k requires 0 <= k < |p| => Bump(p[k]))
  }

  /**
    A held run of the form d 9 9 ... 9, where the leading digit is any digit
    and every later one is a 9: the only shape the buffer ever takes.
   */
  predicate HeldRun(p: seq<char>) {
    AllDigits(p) && forall k :: 1 <= k < |p| ==> p[k] == '9'
  }

  /** A held run whose leading digit is not 9 can absorb a carry. */
  predicate CanAbsorbCarry(p: seq<char>) {
    HeldRun(p) && |p| >= 1 && p[0] != '9'
  }

  /**
    On a run d 9 ... 9 with d < 9, the position-wise carry is an increment of
    the number the run denotes: (d+1) 0 ... 0.
   */
  lemma {:induction false} OverflowIncrements(p: seq<char>)
    requires CanAbsorbCarry(p)
    ensures Val(Overflow(p)) == Val(p) + 1
    decreases |p|
  {
    if |p| > 1 {
      var p' := p[..|p| - 1];
      OverflowIncrements(p');
      assert Overflow(p)[..|p| - 1] == Overflow(p');
      assert Overflow(p)[|p| - 1] == '0';
    }
  }

  /**
    On a run of nines alone the carry rolls every digit over to 0 and the
    carried one is lost.
   */
  lemma {:induction false} OverflowOfNines(p: seq<char>)
    requires HeldRun(p) && (|p| == 0 || p[0] == '9')
    ensures Val(Overflow(p)) == 0
    ensures Val(p) + 1 == Pow10(|p|)
    decreases |p|
  {
    if |p| > 0 {
      var p' := p[..|p| - 1];
      OverflowOfNines(p');
      assert Overflow(p)[..|p| - 1] == Overflow(p');
    }
  }

  // ---------------------------------------------------------------------------
  // The state machine
  // ---------------------------------------------------------------------------

  /** The held predigits, and the output committed so far. */
  datatype State = State(pending: seq<char>, output: seq<char>)

  const Empty: State := State([], [])

  /** Commit the held digits to the output and clear the buffer. */
  function Flush(s: State): (r: State)
    ensures r.pending == []
    ensures r.output + r.pending == s.output + s.pending
  {
    State([], s.output + s.pending)
  }

  /** Hold one more digit, given as its value 0..9. */
  function AddDigit(s: State, d: int): (r: State)
    requires 0 <= d <= 9
    ensures r.output == s.output
    ensures |r.pending| == |s.pending| + 1 && r.pending[..|s.pending|] == s.pending
    ensures IsDigit(r.pending[|s.pending|]) && DigitValue(r.pending[|s.pending|]) == d
  {
    s.(pending := s.pending + [DigitChar(d)])
  }

  /** Carry one into every held digit: each goes up by one, and 9 rolls over to 0. */
  function OverflowDigits(s: State): (r: State)
    requires AllDigits(s.pending)
    ensures r.output == s.output
    ensures |r.pending| == |s.pending| && AllDigits(r.pending)
    ensures forall k :: 0 <= k < |s.pending| ==>
              DigitValue(r.pending[k]) == (DigitValue(s.pending[k]) + 1) % 10
  {
    s.(pending := Overflow(s.pending))
  }

  /** The decimal point, written straight to the output on iteration 1. */
  function PointAfterFirst(s: State, iter: int): State {
    if iter == 1 then s.(output := s.output + ".") else s
  }

  /** Feed one raw value, produced on iteration `iter`, to the ledger. */
  function Step(s: State, iter: int, v: int): (r: State)
    requires v >= 0 && AllDigits(s.pending)
    ensures s.output <= r.output
    ensures AllDigits(r.pending) && |r.pending| >= 1
  {
    if v < 9 then AddDigit(PointAfterFirst(Flush(s), iter), v)
    else if v == 9 then AddDigit(s, 9)
    else AddDigit(Flush(OverflowDigits(s)), 0)
  }

  /** The three transitions of Step, by raw value. */
  lemma StepCases(s: State, iter: int, v: int)
    requires v >= 0 && AllDigits(s.pending)
    ensures v < 9 ==> Step(s, iter, v) == State([DigitChar(v)],
                        s.output + s.pending + (if iter == 1 then "." else ""))
    ensures v == 9 ==> Step(s, iter, v) == State(s.pending + "9", s.output)
    ensures v > 9 ==> Step(s, iter, v) == State("0", s.output + Overflow(s.pending))
  {
  }

  /**
    Every step adds exactly one digit to the committed-plus-held digits, and
    any non-digit it commits is the decimal point of iteration 1 on a value
    below 9.
   */
  lemma StepCounts(s: State, iter: int, v: int)
    requires v >= 0 && AllDigits(s.pending)
    ensures |Digits(Step(s, iter, v).output)| + |Step(s, iter, v).pending|
         == |Digits(s.output)| + |s.pending| + 1
    ensures forall k :: |s.output| <= k < |Step(s, iter, v).output| && !IsDigit(Step(s, iter, v).output[k])
              ==> k == |s.output + s.pending| && Step(s, iter, v).output[k] == '.' && iter == 1 && v < 9
  {
    var r := Step(s, iter, v);
    DigitsOfDigits(s.pending);
    if v < 9 {
      var dot: seq<char> := if iter == 1 then "." else "";
      assert r.output == s.output + s.pending + dot;
      DigitsAppend(s.output, s.pending);
      DigitsAppend(s.output + s.pending, dot);
    } else if v > 9 {
      DigitsOfDigits(Overflow(s.pending));
      DigitsAppend(s.output, Overflow(s.pending));
    }
  }

  /** A step keeps the buffer a held run d 9 ... 9. */
  lemma StepKeepsHeldRun(s: State, iter: int, v: int)
    requires v >= 0 && HeldRun(s.pending)
    ensures HeldRun(Step(s, iter, v).pending)
  {
  }

  /**
    Committed-plus-held digits read as a number grow as the raw values do:
    ten times the old number plus the raw value, provided the value is at most
    10 and a carry finds a buffer that can absorb it.
   */
  lemma StepValue(s: State, iter: int, v: int)
    requires 0 <= v <= 10 && HeldRun(s.pending)
    requires v == 10 ==> CanAbsorbCarry(s.pending)
    ensures Val(Digits(Step(s, iter, v).output) + Step(s, iter, v).pending)
         == 10 * Val(Digits(s.output) + s.pending) + v
  {
    if v <= 9 {
      HoldValue(s, iter, v);
    } else {
      CarryValue(s, iter);
    }
  }

  /** StepValue for a value that is held: the digits gain v at the end. */
  lemma HoldValue(s: State, iter: int, v: int)
    requires 0 <= v <= 9 && AllDigits(s.pending)
    ensures Val(Digits(Step(s, iter, v).output) + Step(s, iter, v).pending)
         == 10 * Val(Digits(s.output) + s.pending) + v
  {
    HoldDigits(s, iter, v);
    ValPush(Digits(s.output) + s.pending, DigitChar(v));
  }

  lemma HoldDigits(s: State, iter: int, v: int)
    requires 0 <= v <= 9 && AllDigits(s.pending)
    ensures Digits(Step(s, iter, v).output) + Step(s, iter, v).pending
         == Digits(s.output) + s.pending + [DigitChar(v)]
  {
    DigitsOfDigits(s.pending);
    if v < 9 {
      var dot: seq<char> := if iter == 1 then "." else "";
      DigitsAppend(s.output, s.pending);
      DigitsAppend(s.output + s.pending, dot);
    }
  }

  /** One more digit at the end multiplies the number by ten and adds the digit. */
  lemma ValPush(s: seq<char>, c: char)
    requires AllDigits(s) && IsDigit(c)
    ensures AllDigits(s + [c])
    ensures Val(s + [c]) == 10 * Val(s) + DigitValue(c)
  {
    assert (s + [c])[..|s|] == s;
  }

  /** StepValue for a carry: the held run d 9 ... 9 becomes (d+1) 0 ... 0, then a 0 is held. */
  lemma CarryValue(s: State, iter: int)
    requires CanAbsorbCarry(s.pending)
    ensures Val(Digits(Step(s, iter, 10).output) + Step(s, iter, 10).pending)
         == 10 * Val(Digits(s.output) + s.pending) + 10
  {
    var r := Step(s, iter, 10);
    var q := Overflow(s.pending);
    var committed := Digits(s.output);
    assert Digits(r.output) + r.pending == committed + q + "0" by {
      DigitsOfDigits(q);
      DigitsAppend(s.output, q);
    }
    ValPush(committed + q, '0');
    ValAppend(committed, q);
    ValAppend(committed, s.pending);
    OverflowIncrements(s.pending);
  }

  // ---------------------------------------------------------------------------
  // A whole stream of raw values
  // ---------------------------------------------------------------------------

  predicate NonNegativeRaw(vs: seq<int>) {
    forall k :: 0 <= k < |vs| ==> vs[k] >= 0
  }

  /** The ledger after feeding it vs[0], vs[1], ..., the k-th on iteration k. */
  function Feed(vs: seq<int>): (r: State)
    requires NonNegativeRaw(vs)
    ensures AllDigits(r.pending)
    decreases |vs|
  {
    if vs == [] then Empty
    else Step(Feed(vs[..|vs| - 1]), |vs| - 1, vs[|vs| - 1])
  }

  /** The run's final text: the buffer committed, then a line break. */
  function Finish(s: State): seq<char> {
    Flush(s).output + "\n"
  }

  /** Output is append-only: feeding more values never changes what was committed. */
  lemma {:induction false} FeedAppendOnly(vs: seq<int>, ws: seq<int>)
    requires NonNegativeRaw(ws) && vs <= ws
    ensures Feed(vs).output <= Feed(ws).output
    decreases |ws|
  {
    if |vs| < |ws| {
      FeedAppendOnly(vs, ws[..|ws| - 1]);
    } else {
      assert vs == ws;
    }
  }

  /**
    After k values the committed digits and the held ones number exactly k,
    the buffer is a held run, and it is empty only before the first value.
   */
  lemma {:induction false} FeedCounts(vs: seq<int>)
    requires NonNegativeRaw(vs)
    ensures |Digits(Feed(vs).output)| + |Feed(vs).pending| == |vs|
    ensures HeldRun(Feed(vs).pending)
    ensures |vs| >= 1 ==> |Feed(vs).pending| >= 1
    decreases |vs|
  {
    if vs != [] {
      var prev := vs[..|vs| - 1];
      FeedCounts(prev);
      StepCounts(Feed(prev), |vs| - 1, vs[|vs| - 1]);
      StepKeepsHeldRun(Feed(prev), |vs| - 1, vs[|vs| - 1]);
    }
  }

  /**
    The only non-digit the ledger ever commits is one decimal point, at index
    1, and it is there exactly when iteration 1 produced a value below 9.
   */
  lemma {:induction false} FeedPoint(vs: seq<int>)
    requires NonNegativeRaw(vs)
    ensures forall k :: 0 <= k < |Feed(vs).output| && !IsDigit(Feed(vs).output[k])
              ==> k == 1 && Feed(vs).output[k] == '.'
    ensures (|Feed(vs).output| >= 2 && Feed(vs).output[1] == '.') <==> (|vs| >= 2 && vs[1] < 9)
    decreases |vs|
  {
    if |vs| == 1 {
      assert vs[..0] == [];
    } else if |vs| == 2 {
      PointOnSecond(vs);
    } else if |vs| > 2 {
      var prev := vs[..|vs| - 1];
      FeedPoint(prev);
      LaterStepKeepsPoint(Feed(prev), |vs| - 1, vs[|vs| - 1]);
      assert prev[1] == vs[1];
    }
  }

  /**
    A step after iteration 1 commits only digits, so the committed text keeps
    its one possible point, and keeps or lacks a point at index 1 as before.
   */
  lemma LaterStepKeepsPoint(s: State, iter: int, v: int)
    requires v >= 0 && AllDigits(s.pending) && iter != 1
    requires forall k :: 0 <= k < |s.output| && !IsDigit(s.output[k]) ==> k == 1 && s.output[k] == '.'
    ensures forall k :: 0 <= k < |Step(s, iter, v).output| && !IsDigit(Step(s, iter, v).output[k])
              ==> k == 1 && Step(s, iter, v).output[k] == '.'
    ensures (|Step(s, iter, v).output| >= 2 && Step(s, iter, v).output[1] == '.')
        <==> (|s.output| >= 2 && s.output[1] == '.')
  {
    var r := Step(s, iter, v);
    StepCounts(s, iter, v);
    forall k | 0 <= k < |s.output|
      ensures r.output[k] == s.output[k]
    {
    }
  }

  /**
    The point is written only on the below-9 branch of iteration 1: a carry
    there commits the rolled-over first digit with no point after it, and a
    9 there commits nothing.
   */
  lemma PointLostOnIterationOne()
    ensures Step(State("3", ""), 1, 10) == State("0", "4")
    ensures Step(State("3", ""), 1, 9) == State("39", "")
    ensures Step(State("3", ""), 1, 1) == State("1", "3.")
  {
  }

  /** Iteration 1 commits the first digit and writes the point exactly on a value below 9. */
  lemma PointOnSecond(vs: seq<int>)
    requires NonNegativeRaw(vs) && |vs| == 2
    ensures forall k :: 0 <= k < |Feed(vs).output| && !IsDigit(Feed(vs).output[k])
              ==> k == 1 && Feed(vs).output[k] == '.'
    ensures (|Feed(vs).output| >= 2 && Feed(vs).output[1] == '.') <==> vs[1] < 9
  {
    var first := Step(Empty, 0, vs[0]);
    assert vs[..1] == [vs[0]] && [vs[0]][..0] == [];
    assert Feed(vs[..1]) == first;
    assert first.output == [] && |first.pending| == 1;
    var r := Step(first, 1, vs[1]);
    if vs[1] < 9 {
      assert r.output == first.pending + ".";
    } else if vs[1] == 9 {
      assert r.output == [];
    } else {
      assert r.output == Overflow(first.pending);
    }
  }

  /**
    The finished text for a raw stream of k values holds exactly k digit
    characters and ends in a line break; its one other character may be a
    decimal point at index 1, there exactly when the second value was below 9.
   */
  lemma TextShape(vs: seq<int>)
    requires NonNegativeRaw(vs)
    ensures |Finish(Feed(vs))| >= 1 && Finish(Feed(vs))[|Finish(Feed(vs))| - 1] == '\n'
    ensures |Digits(Finish(Feed(vs)))| == |vs|
    ensures forall k :: 0 <= k < |Finish(Feed(vs))| - 1 && !IsDigit(Finish(Feed(vs))[k])
              ==> k == 1 && Finish(Feed(vs))[k] == '.'
    ensures (|Finish(Feed(vs))| >= 2 && Finish(Feed(vs))[1] == '.') <==> (|vs| >= 2 && vs[1] < 9)
  {
    FeedCounts(vs);
    FeedPoint(vs);
    FinishShape(Feed(vs), |vs|, |vs| >= 2 && vs[1] < 9);
  }

  /** What Finish makes of a ledger whose output and buffer have the shape a run leaves. */
  lemma FinishShape(s: State, n: nat, point: bool)
    requires AllDigits(s.pending)
    requires |Digits(s.output)| + |s.pending| == n
    requires forall k :: 0 <= k < |s.output| && !IsDigit(s.output[k]) ==> k == 1 && s.output[k] == '.'
    requires (|s.output| >= 2 && s.output[1] == '.') <==> point
    ensures |Finish(s)| >= 1 && Finish(s)[|Finish(s)| - 1] == '\n'
    ensures |Digits(Finish(s))| == n
    ensures forall k :: 0 <= k < |Finish(s)| - 1 && !IsDigit(Finish(s)[k]) ==> k == 1 && Finish(s)[k] == '.'
    ensures (|Finish(s)| >= 2 && Finish(s)[1] == '.') <==> point
  {
    var text := Finish(s);
    assert text == s.output + s.pending + "\n";
    assert Digits(text) == Digits(s.output) + s.pending by {
      DigitsOfDigits(s.pending);
      DigitsAppend(s.output, s.pending);
      DigitsAppend(s.output + s.pending, "\n");
      assert Digits("\n") == [];
    }
    forall k | |s.output| <= k < |text| - 1
      ensures IsDigit(text[k])
    {
      assert text[k] == s.pending[k - |s.output|];
    }
    forall k | 0 <= k < |s.output|
      ensures text[k] == s.output[k]
    {
    }
    if |s.output| <= 1 && |text| > 2 {
      assert text[1] == s.pending[1 - |s.output|];
    }
  }

  /** The value of a raw stream read as decimal digits, carries included. */
  function RawVal(vs: seq<int>): int {
    if vs == [] then 0 else 10 * RawVal(vs[..|vs| - 1]) + vs[|vs| - 1]
  }

  /**
    Every raw value 10 meets a buffer that can absorb its carry: the
    convergence property of the series the ledger relies on and does not check.
   */
  predicate CarriesAbsorbed(vs: seq<int>)
    requires NonNegativeRaw(vs)
    decreases |vs|
  {
    vs == [] ||
    (CarriesAbsorbed(vs[..|vs| - 1]) &&
     (vs[|vs| - 1] > 9 ==> CanAbsorbCarry(Feed(vs[..|vs| - 1]).pending)))
  }

  /**
    The ledger resolves carries correctly: when every raw value is in 0..10
    and every carry is absorbed, the committed and held digits read as one
    decimal number equal the raw stream's value with carries propagated.
   */
  lemma {:induction false} FeedValue(vs: seq<int>)
    requires forall k :: 0 <= k < |vs| ==> 0 <= vs[k] <= 10
    requires CarriesAbsorbed(vs)
    ensures Val(Digits(Feed(vs).output) + Feed(vs).pending) == RawVal(vs)
    decreases |vs|
  {
    if vs != [] {
      var prev := vs[..|vs| - 1];
      FeedValue(prev);
      FeedCounts(prev);
      StepValue(Feed(prev), |vs| - 1, vs[|vs| - 1]);
    } else {
      assert Digits([]) == [];
    }
  }

  /** A 3 held, then 9, 9 and a carry: the carry runs through the nines into the 3. */
  lemma CarryThroughNines()
    ensures Feed([3, 9, 9, 10]) == State("0", "400")
  {
    assert Feed([3]) == State("3", "");
    assert [3, 9, 9, 10][..3] == [3, 9, 9];
    assert [3, 9, 9][..2] == [3, 9];
    assert [3, 9][..1] == [3];
    assert Feed([3, 9]) == State("39", "");
    assert Feed([3, 9, 9]) == State("399", "");
    assert Overflow("399") == "400";
  }
}
