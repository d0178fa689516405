/** Decimal digits and their characters. */
module Numerals {
  type Digit = d: nat | d < 10

  predicate IsDigitChar(c: char) { '0' <= c <= '9' }

  function DigitChar(d: Digit): (c: char)
    ensures IsDigitChar(c) && c as int - '0' as int == d
  {
    '0' + d as char
  }
}
