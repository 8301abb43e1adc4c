/**
  The digit-source array: a mixed-radix representation of a partial sum of
  the Wallis series for pi,

      a[0] + 1/3 (a[1] + 2/5 (a[2] + 3/7 (a[3] + ...))),

  so index i >= 1 carries the weight i/(2i+1) relative to index i-1.  One
  transform pass multiplies the represented number by ten, keeps the
  fractional part in the array and returns the integer part as a raw digit.
 */
module DigitArray {
  import opened JavaArith
  import opened Limits

  predicate NonNegative(a: seq<int>) {
    forall k :: 0 <= k < |a| ==> a[k] >= 0
  }

  /** The initial array for `n` requested digits: ArraySize(n) copies of 2. */
  function InitialDigits(n: nat): seq<int> {
    seq(ArraySize(n), _ => 2)
  }

  /** Allocates the array and fills every element with 2. */
  method Init(n: nat) returns (a: array<int>)
    ensures fresh(a)
    ensures a.Length == ArraySize(n)
    ensures forall k :: 0 <= k < a.Length ==> a[k] == 2
    ensures a[..] == InitialDigits(n)
  {
    a := new int[ArraySize(n)];
    var i := 0;
    while i < a.Length
      invariant 0 <= i <= a.Length
      invariant forall k :: 0 <= k < i ==> a[k] == 2
    {
      a[i] := 2;
      i := i + 1;
    }
  }

  // ---------------------------------------------------------------------------
  // One pass, as a reference definition by index
  // ---------------------------------------------------------------------------

  /** The divisor used at index i >= 1. */
  function Denominator(i: nat): nat {
    2 * i + 1
  }

  /**
    The carry that arrives at index i during a pass over `a`: nothing at the
    top index, otherwise the quotient of index i+1 times i+1.
   */
  function CarryInto(a: seq<int>, i: nat): int
    requires i < |a|
    decreases |a| - i, 0
  {
    if i == |a| - 1 then 0
    else Div(Numerator(a, i + 1), Denominator(i + 1)) * (i + 1)
  }

  /** The value the pass divides at index i: ten times the element plus the carry. */
  function Numerator(a: seq<int>, i: nat): int
    requires i < |a|
    decreases |a| - i, 1
  {
    a[i] * 10 + CarryInto(a, i)
  }

  /** The array after one pass. */
  function NextDigits(a: seq<int>): (b: seq<int>)
    requires |a| >= 1
    ensures |b| == |a|
  {
    seq(|a|, i requires 0 <= i < |a| =>
      if i == 0 then Rem(Numerator(a, 0), 10) else Rem(Numerator(a, i), Denominator(i)))
  }

  /** The raw digit a pass yields. */
  function RawDigit(a: seq<int>): int
    requires |a| >= 1
  {
    Div(Numerator(a, 0), 10)
  }

  // ---------------------------------------------------------------------------
  // The in-place pass
  // ---------------------------------------------------------------------------

  /**
    One pass over the array: from the top index down to 1, replace a[i] by the
    remainder of 10*a[i] + carry modulo 2i+1 and hand the quotient times i
    down as the next carry; at index 0 reduce modulo 10 and return the quotient.
   */
  method TransformPass(a: array<int>) returns (digit: int)
    requires a.Length >= 1
    modifies a
    ensures a[..] == NextDigits(old(a[..]))
    ensures digit == RawDigit(old(a[..]))
  {
    ghost var a0 := a[..];
    ghost var b := NextDigits(a0);
    var carry := 0;
    var i := a.Length - 1;
    while i > 0
      invariant 0 <= i < a.Length
      invariant carry == CarryInto(a0, i)
      invariant forall k :: 0 <= k <= i ==> a[k] == a0[k]
      invariant forall k :: i < k < a.Length ==> a[k] == b[k]
    {
      var numerator := i;
      var denominator := i * 2 + 1;
      var tmp := a[i] * 10 + carry;
      a[i] := Rem(tmp, denominator);
      carry := Div(tmp, denominator) * numerator;
      i := i - 1;
    }
    var tmp := a[0] * 10 + carry;
    a[0] := Rem(tmp, 10);
    digit := Div(tmp, 10);
    assert a[..] == b;
  }

  // ---------------------------------------------------------------------------
  // Facts about one pass
  // ---------------------------------------------------------------------------

  /**
    At every index i >= 1 the new element and the outgoing carry split the
    numerator exactly: new a[i] + (carry/i) * (2i+1) == 10*a[i] + carry in,
    and the outgoing carry is a multiple of i.
   */
  lemma DivisionIdentity(a: seq<int>, i: nat)
    requires 1 <= i < |a|
    ensures CarryInto(a, i - 1) % i == 0
    ensures NextDigits(a)[i] + (CarryInto(a, i - 1) / i) * (2 * i + 1) == a[i] * 10 + CarryInto(a, i)
  {
    var q := Div(Numerator(a, i), Denominator(i));
    assert CarryInto(a, i - 1) == q * i;
    MultipleDivides(q, i);
  }

  lemma MultipleDivides(q: int, i: nat)
    requires i >= 1
    ensures (q * i) % i == 0 && (q * i) / i == q
  {
    var k, r := (q * i) / i, (q * i) % i;
    assert (q - k) * i == r;
    MultipleBounds(q - k, i);
  }

  /** A non-zero multiple of i is at least i away from zero. */
  lemma MultipleBounds(m: int, i: int)
    requires i >= 1
    ensures m >= 1 ==> m * i >= i
    ensures m <= -1 ==> m * i <= -i
  {
  }

  /** Carries in a pass over a non-negative array are non-negative. */
  lemma {:induction false} CarryNonNegative(a: seq<int>, i: nat)
    requires NonNegative(a)
    requires i < |a|
    ensures CarryInto(a, i) >= 0
    ensures Numerator(a, i) >= 0
    decreases |a| - i
  {
    if i < |a| - 1 {
      CarryNonNegative(a, i + 1);
      AgreeOnNonNegative(Numerator(a, i + 1), Denominator(i + 1));
      NatDivision(Numerator(a, i + 1), Denominator(i + 1));
    }
  }

  /**
    After a pass over a non-negative array every a[i] with i >= 1 lies in
    [0, 2i], a[0] lies in [0, 9] and the raw digit is non-negative.
   */
  lemma PassRanges(a: seq<int>)
    requires |a| >= 1 && NonNegative(a)
    ensures forall i :: 1 <= i < |a| ==> 0 <= NextDigits(a)[i] <= 2 * i
    ensures 0 <= NextDigits(a)[0] <= 9
    ensures RawDigit(a) >= 0
    ensures NonNegative(NextDigits(a))
  {
    var b := NextDigits(a);
    forall i | 0 <= i < |a|
      ensures 0 <= b[i] && (i == 0 ==> b[i] <= 9) && (i >= 1 ==> b[i] <= 2 * i)
    {
      CarryNonNegative(a, i);
      if i == 0 {
        AgreeOnNonNegative(Numerator(a, 0), 10);
      } else {
        AgreeOnNonNegative(Numerator(a, i), Denominator(i));
      }
    }
    CarryNonNegative(a, 0);
    AgreeOnNonNegative(Numerator(a, 0), 10);
    NatDivision(Numerator(a, 0), 10);
  }

  // ---------------------------------------------------------------------------
  // The represented number
  // ---------------------------------------------------------------------------

  /** The weight of index i (i >= 1) relative to index i-1: i/(2i+1). */
  function Weight(i: nat): real {
    (i as real) / (Denominator(i) as real)
  }

  /** The number the suffix a[i..] represents, a[i] + (i+1)/(2i+3) (a[i+1] + ...). */
  function ValueFrom(a: seq<int>, i: nat): real
    requires i < |a|
    decreases |a| - i
  {
    if i == |a| - 1 then a[i] as real
    else a[i] as real + Weight(i + 1) * ValueFrom(a, i + 1)
  }

  /** The number the whole array represents. */
  function Value(a: seq<int>): real
    requires |a| >= 1
  {
    ValueFrom(a, 0)
  }

  lemma WeightTimesDenominator(q: int, i: nat)
    requires i >= 1
    ensures Weight(i) * ((q * Denominator(i)) as real) == (q * i) as real
  {
    var d := Denominator(i) as real;
    assert (q * Denominator(i)) as real == (q as real) * d;
    assert (q * i) as real == (q as real) * (i as real);
    calc {
      Weight(i) * ((q as real) * d);
      ((i as real) / d) * d * (q as real);
      (i as real) * (q as real);
    }
  }

  /**
    The arithmetic of one pass, stated over plain sequences: at every index
    k >= 1 the numerator 10*a[k] + carry[k] splits into quot[k]*(2k+1) plus
    the new element b[k], nothing arrives at the top index, and the carry
    into k-1 is quot[k]*k.
   */
  ghost predicate SplitPass(a: seq<int>, b: seq<int>, carry: seq<int>, quot: seq<int>) {
    && |a| >= 1 && |b| == |a| && |carry| == |a| && |quot| == |a|
    && carry[|a| - 1] == 0
    && (forall k {:trigger b[k]} :: 1 <= k < |a| ==> a[k] * 10 + carry[k] == quot[k] * Denominator(k) + b[k])
    && (forall k {:trigger carry[k]} :: 0 <= k < |a| - 1 ==> carry[k] == quot[k + 1] * (k + 1))
  }

  /** The quotient a pass forms at index i >= 1. */
  function Quotient(a: seq<int>, i: nat): int
    requires 1 <= i < |a|
  {
    Div(Numerator(a, i), Denominator(i))
  }

  function Carries(a: seq<int>): (c: seq<int>)
    ensures |c| == |a|
  {
    seq(|a|, k requires 0 <= k < |a| => CarryInto(a, k))
  }

  function Quotients(a: seq<int>): (q: seq<int>)
    ensures |q| == |a|
  {
    seq(|a|, k requires 0 <= k < |a| => if k == 0 then RawDigit(a) else Quotient(a, k))
  }

  /** The pass the source performs has the arithmetic SplitPass describes. */
  lemma PassSplits(a: seq<int>)
    requires |a| >= 1
    ensures SplitPass(a, NextDigits(a), Carries(a), Quotients(a))
  {
  }

  /**
    v lists the values of the suffixes of a: the top one is the top element,
    and each lower one is its element plus the weighted value above it.
   */
  ghost predicate SuffixChain(a: seq<int>, v: seq<real>) {
    && |a| >= 1 && |v| == |a|
    && v[|a| - 1] == a[|a| - 1] as real
    && (forall k {:trigger a[k]} :: 0 <= k < |a| - 1 ==> v[k] == a[k] as real + Weight(k + 1) * v[k + 1])
  }

  /** The values of all suffixes of a. */
  ghost function Suffixes(a: seq<int>): (v: seq<real>)
    requires |a| >= 1
    ensures |v| == |a| && v[0] == Value(a)
  {
    seq(|a|, k requires 0 <= k < |a| => ValueFrom(a, k))
  }

  lemma SuffixesChain(a: seq<int>)
    requires |a| >= 1
    ensures SuffixChain(a, Suffixes(a))
  {
    forall k | 0 <= k < |a| - 1
      ensures Suffixes(a)[k] == a[k] as real + Weight(k + 1) * Suffixes(a)[k + 1]
    {
      UnfoldValue(a, k);
    }
  }

  /**
    From index i >= 1 upward, ten times the represented suffix is the part the
    pass hands down (quotient times 2i+1) plus the suffix left behind.
   */
  lemma {:induction false} TenTimesSuffix(a: seq<int>, b: seq<int>, carry: seq<int>, quot: seq<int>,
                                          va: seq<real>, vb: seq<real>, i: nat)
    requires SplitPass(a, b, carry, quot)
    requires SuffixChain(a, va) && SuffixChain(b, vb)
    requires 1 <= i < |a|
    ensures 10.0 * va[i] == (quot[i] * Denominator(i)) as real + vb[i]
    decreases |a| - i
  {
    assert a[i] * 10 + carry[i] == quot[i] * Denominator(i) + b[i];
    if i < |a| - 1 {
      assert carry[i] == quot[i + 1] * (i + 1);
      TenTimesSuffix(a, b, carry, quot, va, vb, i + 1);
      assert va[i] == a[i] as real + Weight(i + 1) * va[i + 1];
      assert vb[i] == b[i] as real + Weight(i + 1) * vb[i + 1];
      StepArithmetic(a[i], b[i], carry[i], quot[i], quot[i + 1], i, va[i + 1], vb[i + 1], va[i], vb[i]);
    }
  }

  lemma UnfoldValue(a: seq<int>, i: nat)
    requires i < |a| - 1
    ensures ValueFrom(a, i) == a[i] as real + Weight(i + 1) * ValueFrom(a, i + 1)
  {
  }

  /**
    One step of TenTimesSuffix on plain numbers: index i splits its numerator
    into quotI*(2i+1) + bi, the carry it received is quotNext*(i+1), and ten
    times the suffix above splits as quotNext*(2i+3) + y.
   */
  lemma StepArithmetic(ai: int, bi: int, carryI: int, quotI: int, quotNext: int, i: nat,
                       x: real, y: real, va: real, vb: real)
    requires carryI == quotNext * (i + 1)
    requires ai * 10 + carryI == quotI * Denominator(i) + bi
    requires 10.0 * x == (quotNext * Denominator(i + 1)) as real + y
    requires va == ai as real + Weight(i + 1) * x
    requires vb == bi as real + Weight(i + 1) * y
    ensures 10.0 * va == (quotI * Denominator(i)) as real + vb
  {
    var w := Weight(i + 1);
    WeightTimesDenominator(quotNext, i + 1);
    ScaleWeighted(w, x, y, (quotNext * Denominator(i + 1)) as real, carryI as real);
    Regroup(ai, bi, quotI * Denominator(i), carryI, w * x, w * y, va, vb);
  }

  /** Ten times a weighted suffix, given ten times the suffix split as q + y and w*q == c. */
  lemma ScaleWeighted(w: real, x: real, y: real, q: real, c: real)
    requires 10.0 * x == q + y
    requires w * q == c
    ensures 10.0 * (w * x) == c + w * y
  {
    calc {
      10.0 * (w * x);
      w * (10.0 * x);
      w * (q + y);
      w * q + w * y;
      c + w * y;
    }
  }

  /** Linear regrouping of one step, with the products as atoms. */
  lemma Regroup(ai: int, bi: int, split: int, carry: int, wx: real, wy: real, va: real, vb: real)
    requires ai * 10 + carry == bi + split
    requires 10.0 * wx == carry as real + wy
    requires va == ai as real + wx && vb == bi as real + wy
    ensures 10.0 * va == split as real + vb
  {
  }

  /** The whole array on plain sequences: index 0 splits its numerator by ten. */
  lemma TenTimesValue(a: seq<int>, b: seq<int>, carry: seq<int>, quot: seq<int>, va: seq<real>, vb: seq<real>)
    requires SplitPass(a, b, carry, quot)
    requires SuffixChain(a, va) && SuffixChain(b, vb)
    requires a[0] * 10 + carry[0] == quot[0] * 10 + b[0]
    ensures 10.0 * va[0] == 10.0 * (quot[0] as real) + vb[0]
  {
    if |a| == 1 {
      assert 10.0 * va[0] == (a[0] * 10) as real;
    } else {
      assert carry[0] == quot[1] * 1;
      TenTimesSuffix(a, b, carry, quot, va, vb, 1);
      assert va[0] == a[0] as real + Weight(1) * va[1];
      assert vb[0] == b[0] as real + Weight(1) * vb[1];
      StepArithmetic(a[0], b[0], carry[0], quot[0] * 10, quot[1], 0, va[1], vb[1], va[0], vb[0]);
    }
  }

  /**
    One pass multiplies the represented number by ten: ten times the old value
    is ten times the raw digit plus the value left in the array.
   */
  lemma PassScalesValue(a: seq<int>)
    requires |a| >= 1
    ensures 10.0 * Value(a) == 10.0 * (RawDigit(a) as real) + Value(NextDigits(a))
  {
    PassSplits(a);
    assert NextDigits(a)[0] == Rem(Numerator(a, 0), 10);
    assert Carries(a)[0] == CarryInto(a, 0) && Quotients(a)[0] == RawDigit(a);
    SuffixesChain(a);
    SuffixesChain(NextDigits(a));
    TenTimesValue(a, NextDigits(a), Carries(a), Quotients(a), Suffixes(a), Suffixes(NextDigits(a)));
  }
}
