/** What number a literal writes, said digit by digit: the place value of its digits, and what a point and an exponent
    do to it (section 6 of RFC 8259). */
module Literals {
  import opened Json
  import opened Numerals

  // ---------------------------------------------------------------- digits

  lemma OneDigit(d: Digit)
    ensures DigitsValue([d]) == d
  {
    assert [d][..0] == [];
  }

  lemma Pow10Adds(m: nat, n: nat)
    ensures Pow10(m + n) == Pow10(m) * Pow10(n)
    decreases m
  {
    if m > 0 {
      Pow10Adds(m - 1, n);
      assert 10 * (Pow10(m - 1) * Pow10(n)) == (10 * Pow10(m - 1)) * Pow10(n);
    }
  }

  /** Digits in front of others count for as many tens more as there are others. */
  lemma {:induction false} DigitsConcat(a: seq<Digit>, b: seq<Digit>)
    ensures DigitsValue(a + b) == DigitsValue(a) * Pow10(|b|) + DigitsValue(b)
    decreases |b|
  {
    if b == [] {
      assert a + b == a;
    } else {
      var front, last := b[..|b| - 1], b[|b| - 1];
      DigitsConcat(a, front);
      assert (a + b)[..|a + b| - 1] == a + front && (a + b)[|a + b| - 1] == last;
      TimesTen(DigitsValue(a), Pow10(|front|), DigitsValue(front), last);
    }
  }

  lemma TimesTen(a: int, p: int, b: int, d: int)
    ensures 10 * (a * p + b) + d == a * (10 * p) + (10 * b + d)
  {
  }

  function Signed(neg: bool, n: nat): int { if neg then 0 - n else n }

  /** A literal without point and exponent writes its digits. */
  lemma WholeIsDigits(neg: bool, whole: seq<Digit>)
    ensures Value(Literal(neg, whole, [], NoExponent)) == Fraction(Signed(neg, DigitsValue(whole)), 1)
  {
    assert whole + [] == whole;
  }

  // ---------------------------------------------------------------- point and exponent

  /** A number times a power of ten, and divided by one. */
  function Times(q: Fraction, p: nat): Fraction { Fraction(q.num * p, q.den) }

  function Over(q: Fraction, p: nat): Fraction { Fraction(q.num, q.den * p) }

  function Shifted(m: int, e: int): (q: Fraction)
    ensures q.den > 0
  {
    if e >= 0 then Fraction(m * Pow10(e), 1) else Fraction(m, Pow10(-e))
  }

  lemma ShiftedFurther(m: int, e: int, n: nat)
    ensures SameValue(Shifted(m, e + n), Times(Shifted(m, e), Pow10(n)))
  {
    var p := Pow10(n);
    if e >= 0 {
      Pow10Adds(e, n);
      Reorder(m, Pow10(e), p);
    } else if e + n >= 0 {
      Pow10Adds(e + n, -e);
      Reorder(m, Pow10(e + n), Pow10(-e));
    } else {
      Pow10Adds(n, -e - n);
      Reorder(m, p, Pow10(-e - n));
    }
  }

  lemma Reorder(m: int, a: int, b: int)
    ensures m * (a * b) == (m * a) * b
  {
  }

  lemma Reassociate(a: int, b: int, c: int)
    ensures (a * b) * c == a * (c * b)
  {
  }

  lemma ShiftedBack(m: int, e: int, n: nat)
    ensures SameValue(Shifted(m, e - n), Over(Shifted(m, e), Pow10(n)))
  {
    ShiftedFurther(m, e - n, n);
    var low, high, p := Shifted(m, e - n), Shifted(m, e), Pow10(n);
    Reassociate(low.num, p, high.den);
  }

  lemma ValueIsShifted(l: Literal)
    ensures Value(l) == Shifted(Signed(l.neg, DigitsValue(l.whole + l.frac)), Scale(l))
  {
  }

  /** An exponent multiplies by a power of ten, or divides by one. */
  lemma ExponentScales(l: Literal, upper: bool, sign: Sign, digits: seq<Digit>)
    requires l.exp.NoExponent?
    ensures var p := Pow10(DigitsValue(digits));
            SameValue(Value(l.(exp := Exponent(upper, sign, digits))),
                      if sign == Minus then Over(Value(l), p) else Times(Value(l), p))
  {
    var m, e, n := Signed(l.neg, DigitsValue(l.whole + l.frac)), Scale(l), DigitsValue(digits);
    ValueIsShifted(l);
    ValueIsShifted(l.(exp := Exponent(upper, sign, digits)));
    if sign == Minus { ShiftedBack(m, e, n); } else { ShiftedFurther(m, e, n); }
  }

  /** Each digit the point is moved to the left divides by ten. */
  lemma PointDividesByTen(l: Literal, d: Digit)
    ensures SameValue(Value(l.(whole := l.whole + [d])), Times(Value(l.(frac := [d] + l.frac)), 10))
  {
    var before, after := l.(whole := l.whole + [d]), l.(frac := [d] + l.frac);
    assert before.whole + before.frac == after.whole + after.frac;
    ValueIsShifted(before);
    ValueIsShifted(after);
    assert Pow10(1) == 10 * Pow10(0);
    ShiftedFurther(Signed(l.neg, DigitsValue(after.whole + after.frac)), Scale(after), 1);
  }

  /** A minus sign in front negates. */
  lemma MinusNegates(l: Literal)
    requires !l.neg
    ensures SameValue(Value(l.(neg := true)), Fraction(-Value(l).num, Value(l).den))
  {
    var m, e := DigitsValue(l.whole + l.frac), Scale(l);
    ValueIsShifted(l);
    ValueIsShifted(l.(neg := true));
    if e >= 0 { Negated(m, Pow10(e)); }
  }

  lemma Negated(m: int, p: int)
    ensures (0 - m) * p == 0 - m * p
  {
  }

  // ---------------------------------------------------------------- zeros

  function Zeros(n: nat): seq<Digit> { seq(n, i => 0) }

  lemma {:induction false} ZerosAreNothing(n: nat)
    ensures DigitsValue(Zeros(n)) == 0
  {
    if n > 0 {
      assert Zeros(n)[..n - 1] == Zeros(n - 1);
      ZerosAreNothing(n - 1);
    }
  }

  lemma SignedTimes(neg: bool, m: nat, p: nat, n: nat)
    requires n == m * p
    ensures Signed(neg, n) == Signed(neg, m) * p
  {
    Negated(m, p);
  }

  lemma ZerosMultiply(neg: bool, whole: seq<Digit>, n: nat)
    ensures Value(Literal(neg, whole + Zeros(n), [], NoExponent)) ==
            Times(Value(Literal(neg, whole, [], NoExponent)), Pow10(n))
  {
    var more := whole + Zeros(n);
    DigitsConcat(whole, Zeros(n));
    ZerosAreNothing(n);
    WholeIsDigits(neg, whole);
    WholeIsDigits(neg, more);
    SignedTimes(neg, DigitsValue(whole), Pow10(n), DigitsValue(more));
  }

  /** An exponent that is not negative writes as many zeros. */
  lemma ExponentWritesZeros(neg: bool, whole: seq<Digit>, upper: bool, sign: Sign, digits: seq<Digit>)
    requires sign != Minus
    ensures SameValue(Value(Literal(neg, whole, [], Exponent(upper, sign, digits))),
                      Value(Literal(neg, whole + Zeros(DigitsValue(digits)), [], NoExponent)))
  {
    ZerosMultiply(neg, whole, DigitsValue(digits));
    ExponentScales(Literal(neg, whole, [], NoExponent), upper, sign, digits);
  }

  lemma ZeroTakesAPlace(digits: seq<Digit>)
    ensures DigitsValue(digits + [0]) == 10 * DigitsValue(digits)
  {
    assert (digits + [0])[..|digits|] == digits;
  }

  /** A zero at the end of the digits after the point changes nothing. */
  lemma TrailingZeroIsNothing(l: Literal)
    ensures SameValue(Value(l.(frac := l.frac + [0])), Value(l))
  {
    var zero, m := l.(frac := l.frac + [0]), DigitsValue(l.whole + l.frac);
    assert zero.whole + zero.frac == (l.whole + l.frac) + [0];
    ZeroTakesAPlace(l.whole + l.frac);
    SignedTimes(l.neg, m, 10, 10 * m);
    ShiftedTen(Signed(l.neg, m), Scale(zero));
    ValueIsShifted(l);
    ValueIsShifted(zero);
  }

  lemma ShiftedTen(m: int, e: int)
    ensures SameValue(Shifted(10 * m, e), Shifted(m, e + 1))
  {
    assert Pow10(1) == 10 * Pow10(0);
    ShiftedFurther(m, e, 1);
    if e >= 0 {
      assert (10 * m) * Pow10(e) == (m * Pow10(e)) * 10;
    }
  }
}
