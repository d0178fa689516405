/** What JSON encoding leaves of a string of bytes: each byte that is no part of a UTF-8 sequence becomes the
    replacement character (encoding/json and unicode/utf8, as a handoff goes through them). */
module Utf8 {
  const REPLACEMENT: string := [0xEF as char, 0xBF as char, 0xBD as char]

  predicate InRange(s: string, i: nat, low: int, high: int) { i < |s| && low <= s[i] as int <= high }

  predicate Continues(s: string, i: nat) { InRange(s, i, 0x80, 0xBF) }

  /** The length of the sequence of two bytes or more at the start of `s` (table 3-7 of the Unicode Standard), 0 for
      none. */
  function LongLength(s: string): (n: nat)
    ensures n <= |s|
  {
    if InRange(s, 0, 0xC2, 0xDF) && Continues(s, 1) then 2
    else if |s| >= 2 && Continues(s, 2) && ThreeStart(s) then 3
    else if |s| >= 2 && Continues(s, 2) && Continues(s, 3) && FourStart(s) then 4
    else 0
  }

  predicate ThreeStart(s: string) {
    || (InRange(s, 0, 0xE0, 0xE0) && InRange(s, 1, 0xA0, 0xBF))
    || ((InRange(s, 0, 0xE1, 0xEC) || InRange(s, 0, 0xEE, 0xEF)) && Continues(s, 1))
    || (InRange(s, 0, 0xED, 0xED) && InRange(s, 1, 0x80, 0x9F))
  }

  predicate FourStart(s: string) {
    || (InRange(s, 0, 0xF0, 0xF0) && InRange(s, 1, 0x90, 0xBF))
    || (InRange(s, 0, 0xF1, 0xF3) && Continues(s, 1))
    || (InRange(s, 0, 0xF4, 0xF4) && InRange(s, 1, 0x80, 0x8F))
  }

  /** The length of the sequence at the start of `s`, 0 where its first byte is no part of one. */
  function Length(s: string): (n: nat)
    requires s != ""
    ensures n <= |s|
  {
    if s[0] as int < 0x80 then 1 else LongLength(s)
  }

  predicate IsUtf8(s: string)
    decreases |s|
  {
    s == "" || (Length(s) > 0 && IsUtf8(s[Length(s)..]))
  }

  /** The bytes read back from the JSON text of `s`. */
  function Carried(s: string): (r: string)
    ensures |r| >= |s|
    decreases |s|
  {
    if s == "" then ""
    else if Length(s) == 0 then REPLACEMENT + Carried(s[1..])
    else s[..Length(s)] + Carried(s[Length(s)..])
  }

  /** A string is carried unchanged exactly when it is UTF-8. */
  lemma {:induction false} CarriedExactly(s: string)
    ensures Carried(s) == s <==> IsUtf8(s)
    ensures !IsUtf8(s) ==> |Carried(s)| > |s|
    decreases |s|
  {
    if s != "" && Length(s) > 0 {
      var n := Length(s);
      CarriedExactly(s[n..]);
      assert s == s[..n] + s[n..];
    }
  }
}
