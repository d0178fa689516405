/** Decoded JSON values, as a Go decoder with UseNumber yields them: a number keeps its literal, an object
    is an unordered map of its members. */
module Json {
  import opened Numerals

  datatype Sign = NoSign | Plus | Minus

  /** The exponent of a number literal; `upper` tells `E` from `e`. */
  datatype Exponent = NoExponent | Exponent(upper: bool, sign: Sign, digits: seq<Digit>)

  /** A number literal of RFC 8259, section 6; an empty `frac` stands for no decimal point. */
  datatype Literal = Literal(neg: bool, whole: seq<Digit>, frac: seq<Digit>, exp: Exponent)

  datatype Json =
    | Null
    | Bool(b: bool)
    | Num(lit: Literal)
    | Str(s: string)
    | Arr(items: seq<Json>)
    | Obj(members: map<string, Json>)

  /** The number a digit sequence writes. */
  function DigitsValue(ds: seq<Digit>): nat {
    if ds == [] then 0 else 10 * DigitsValue(ds[..|ds| - 1]) + ds[|ds| - 1]
  }

  function Pow10(n: nat): (p: nat)
    ensures p > 0
  {
    if n == 0 then 1 else 10 * Pow10(n - 1)
  }

  /** An exact rational number; `den` is positive but need not be reduced. */
  datatype Fraction = Fraction(num: int, den: int)

  /** The power of ten the digits of `l`, read without the point, are scaled by. */
  function Scale(l: Literal): int {
    (match l.exp
     case NoExponent => 0
     case Exponent(_, sign, digits) => if sign == Minus then 0 - DigitsValue(digits) else DigitsValue(digits))
    - |l.frac|
  }

  /** The exact value of a literal. */
  function Value(l: Literal): (q: Fraction)
    ensures q.den > 0
  {
    var digits := DigitsValue(l.whole + l.frac);
    var m := if l.neg then 0 - digits else digits;
    var e := Scale(l);
    if e >= 0 then Fraction(m * Pow10(e), 1) else Fraction(m, Pow10(-e))
  }

  /** Exact comparison by cross-multiplication. */
  predicate SameValue(p: Fraction, q: Fraction) { p.num * q.den == q.num * p.den }

  predicate AtMost(p: Fraction, q: Fraction) { p.num * q.den <= q.num * p.den }

  /** Whether strconv.ParseInt reads the literal: no point, no exponent, 64 bits. */
  predicate IsInt64(l: Literal) {
    l.frac == [] && l.exp.NoExponent? &&
    (if l.neg then DigitsValue(l.whole) <= 0x8000_0000_0000_0000 else DigitsValue(l.whole) < 0x8000_0000_0000_0000)
  }

  function DigitsText(ds: seq<Digit>): string {
    seq(|ds|, i requires 0 <= i < |ds| => DigitChar(ds[i]))
  }

  function SignText(sign: Sign): string {
    match sign case NoSign => "" case Plus => "+" case Minus => "-"
  }

  function ExponentText(e: Exponent): string {
    match e
    case NoExponent => ""
    case Exponent(upper, sign, digits) => (if upper then "E" else "e") + (SignText(sign) + DigitsText(digits))
  }

  function TailText(frac: seq<Digit>, exp: Exponent): string {
    if frac == [] then ExponentText(exp) else "." + (DigitsText(frac) + ExponentText(exp))
  }

  /** The literal as it was written. */
  function LiteralText(l: Literal): string {
    (if l.neg then "-" else "") + (DigitsText(l.whole) + TailText(l.frac, l.exp))
  }

  predicate IsNumberChar(c: char) { IsDigitChar(c) || c in "-+.eE" }

  predicate NumberText(s: string) { forall c | c in s :: IsNumberChar(c) }

  lemma AppendNumberText(s: string, t: string)
    requires NumberText(s) && NumberText(t)
    ensures NumberText(s + t)
  {
  }

  lemma ExponentTextChars(e: Exponent)
    ensures NumberText(ExponentText(e))
  {
    if e.Exponent? {
      AppendNumberText(SignText(e.sign), DigitsText(e.digits));
      AppendNumberText(if e.upper then "E" else "e", SignText(e.sign) + DigitsText(e.digits));
    }
  }

  lemma LiteralTextChars(l: Literal)
    ensures NumberText(LiteralText(l))
  {
    ExponentTextChars(l.exp);
    AppendNumberText(DigitsText(l.frac), ExponentText(l.exp));
    AppendNumberText(".", DigitsText(l.frac) + ExponentText(l.exp));
    AppendNumberText(DigitsText(l.whole), TailText(l.frac, l.exp));
    AppendNumberText(if l.neg then "-" else "", DigitsText(l.whole) + TailText(l.frac, l.exp));
  }
}
