/**
  Java's integer arithmetic, written out over Dafny's unbounded `int`.

  Dafny's `/` and `%` are Euclidean (the remainder is never negative); Java's
  `/` truncates toward zero and `%` takes the sign of the dividend.  The spigot
  only ever divides non-negative numerators, where the two agree, but the model
  uses Java's operators so that the agreement is a proved fact rather than an
  assumption.
 */
module JavaArith {

  const IntMin: int := -0x8000_0000
  const IntMax: int := 0x7fff_ffff

  function Abs(x: int): nat {
    if x < 0 then -x else x
  }

  /** Java `x / d`: the quotient rounded toward zero. */
  function Div(x: int, d: int): int
    requires d != 0
  {
    var m := Abs(x) / Abs(d);
    if (x < 0) == (d < 0) then m else -m
  }

  /** Java `x % d`: what is left of `x` once `Div(x, d)` copies of `d` are taken away. */
  function Rem(x: int, d: int): int
    requires d != 0
  {
    x - Div(x, d) * d
  }

  /**
    Truncating division: the quotient's magnitude is the quotient of the
    magnitudes, quotient and remainder rebuild the dividend, the remainder is
    smaller than the divisor in magnitude and has the sign of the dividend.
   */
  lemma TruncatedDivision(x: int, d: int)
    requires d != 0
    ensures Abs(Div(x, d)) == Abs(x) / Abs(d)
    ensures Div(x, d) != 0 ==> ((Div(x, d) < 0) <==> ((x < 0) != (d < 0)))
    ensures Div(x, d) * d + Rem(x, d) == x
    ensures Abs(Rem(x, d)) < Abs(d)
    ensures Rem(x, d) != 0 ==> ((Rem(x, d) < 0) <==> (x < 0))
  {
    var q := Div(x, d);
    NatDivision(Abs(x), Abs(d));
    assert Abs(q * d) == Abs(q) * Abs(d) by { SignedProduct(q, d); }
  }

  /** Euclid's bounds on the quotient of two naturals. */
  lemma NatDivision(a: nat, b: nat)
    requires b > 0
    ensures a / b >= 0
    ensures (a / b) * b <= a < (a / b) * b + b
  {
  }

  lemma SignedProduct(q: int, d: int)
    ensures Abs(q * d) == Abs(q) * Abs(d)
    ensures q * d >= 0 <==> (q == 0 || d == 0 || (q < 0) == (d < 0))
  {
  }

  /** On a non-negative dividend and a positive divisor Java's operators are Dafny's. */
  lemma AgreeOnNonNegative(x: int, d: int)
    requires x >= 0 && d > 0
    ensures Div(x, d) == x / d
    ensures Rem(x, d) == x % d
    ensures 0 <= Rem(x, d) < d
  {
    TruncatedDivision(x, d);
    NatDivision(x, d);
  }

  /** A Java `int` result: the mathematical value reduced into [IntMin, IntMax]. */
  function Wrap32(x: int): (w: int)
    ensures IntMin <= w <= IntMax
    ensures (w - x) % 0x1_0000_0000 == 0
    ensures IntMin <= x <= IntMax ==> w == x
  {
    (x - IntMin) % 0x1_0000_0000 + IntMin
  }
}
