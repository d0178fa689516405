/** The canonical text of a JSON value that carries `uniqueItems` (equalityKey in
    internal/application/schema.go). */
module EqualityKey {
  import opened Json
  import Literals
  import opened Numerals
  import opened Order

  // ---------------------------------------------------------------- numbers

  predicate Clears(f: Fraction, d: int)
    requires f.den > 0
  {
    d > 0 && (f.num * d) % f.den == 0
  }

  lemma OwnDenominatorClears(f: Fraction)
    requires f.den > 0
    ensures Clears(f, f.den)
  {
    Multiple(f.num, f.den);
  }

  lemma Multiple(k: int, d: int)
    requires d > 0
    ensures (k * d) % d == 0 && (k * d) / d == k
  {
    var q, r := (k * d) / d, (k * d) % d;
    assert k * d == d * q + r;
    assert d * (k - q) == r by { assert d * (k - q) == d * k - d * q; }
    if k - q >= 1 { Scaled(d, 1, k - q); }
    if k - q <= -1 { Scaled(d, k - q, -1); }
  }

  lemma Scaled(d: int, a: int, b: int)
    requires d >= 0 && a <= b
    ensures d * a <= d * b
  {
  }

  /** The least denominator from `d` on the value can be written with. */
  function LeastFrom(f: Fraction, d: int): (r: int)
    requires f.den > 0 && 1 <= d <= f.den
    ensures d <= r <= f.den && Clears(f, r) && forall e | d <= e < r :: !Clears(f, e)
    decreases f.den - d
  {
    OwnDenominatorClears(f);
    if Clears(f, d) then d else LeastFrom(f, d + 1)
  }

  /** The value in lowest terms: its least positive denominator, and the numerator that goes with it. */
  function Lowest(f: Fraction): (r: Fraction)
    requires f.den > 0
    ensures r.den > 0 && SameValue(f, r)
  {
    var d := LeastFrom(f, 1);
    assert f.num * d == (f.num * d) / f.den * f.den;
    Fraction(f.num * d / f.den, d)
  }

  lemma Cancel(a: int, b: int, d: int)
    requires d > 0 && a * d == b * d
    ensures a == b
  {
    Multiple(a, d);
    Multiple(b, d);
  }

  /** Values written with the same denominator `d` have the same numerator there. */
  lemma ClearsSame(f: Fraction, g: Fraction, d: int)
    requires f.den > 0 && g.den > 0 && SameValue(f, g) && Clears(f, d)
    ensures Clears(g, d) && f.num * d / f.den == g.num * d / g.den
  {
    var k := f.num * d / f.den;
    assert f.num * d == k * f.den;
    calc {
      (g.num * d) * f.den;
      (g.num * f.den) * d;
      (f.num * g.den) * d;
      (f.num * d) * g.den;
      (k * f.den) * g.den;
      (k * g.den) * f.den;
    }
    Cancel(g.num * d, k * g.den, f.den);
    Multiple(k, g.den);
  }

  lemma SameValueSameLowest(f: Fraction, g: Fraction)
    requires f.den > 0 && g.den > 0 && SameValue(f, g)
    ensures Lowest(f) == Lowest(g)
  {
    var d, e := LeastFrom(f, 1), LeastFrom(g, 1);
    ClearsSame(f, g, d);
    ClearsSame(g, f, e);
    assert d == e;
  }

  lemma SameValueIsTransitive(f: Fraction, r: Fraction, g: Fraction)
    requires r.den > 0 && SameValue(f, r) && SameValue(g, r)
    ensures SameValue(f, g)
  {
    Reassociate(f.num, g.den, r.den);
    Reassociate(g.num, f.den, r.den);
    Reassociate(r.num, f.den, g.den);
    assert (f.num * g.den) * r.den == (r.num * f.den) * g.den;
    assert (g.num * f.den) * r.den == (r.num * g.den) * f.den;
    Cancel(f.num * g.den, g.num * f.den, r.den);
  }

  lemma Reassociate(a: int, b: int, c: int)
    ensures (a * b) * c == (a * c) * b
  {
  }

  /** Lowest terms are canonical: two fractions share them exactly when they are the same number. */
  lemma LowestIsCanonical(f: Fraction, g: Fraction)
    requires f.den > 0 && g.den > 0
    ensures Lowest(f) == Lowest(g) <==> SameValue(f, g)
  {
    if SameValue(f, g) {
      SameValueSameLowest(f, g);
    }
    if Lowest(f) == Lowest(g) {
      SameValueIsTransitive(f, Lowest(f), g);
    }
  }

  function Decimal(n: nat): (s: string)
    ensures s != [] && (|s| == 1 <==> n < 10) && forall c | c in s :: IsDigitChar(c)
  {
    if n < 10 then [DigitChar(n)] else Decimal(n / 10) + [DigitChar(n % 10)]
  }

  lemma {:induction false} DecimalIsInjective(m: nat, n: nat)
    requires Decimal(m) == Decimal(n)
    ensures m == n
  {
    var s, t := Decimal(m), Decimal(n);
    assert s[|s| - 1] == t[|t| - 1];
    if m >= 10 {
      assert s[..|s| - 1] == Decimal(m / 10) && t[..|t| - 1] == Decimal(n / 10);
      DecimalIsInjective(m / 10, n / 10);
    }
  }

  function SignedDecimal(n: int): string {
    if n < 0 then "-" + Decimal(-n) else Decimal(n)
  }

  /** `big.Rat.String`: numerator and denominator in lowest terms. */
  function RatText(f: Fraction): string
    requires f.den > 0
  {
    SignedDecimal(f.num) + "/" + Decimal(f.den)
  }

  // ---------------------------------------------------------------- tokens

  /** `t` is a token and `x` what follows it: `x` is nothing or starts with a character no token holds. */
  predicate Ends(t: string, x: string, stop: set<char>) {
    (forall c | c in t :: c !in stop) && (x == "" || x[0] in stop)
  }

  /** The number of characters before the first one of `stop`. */
  function Span(s: string, stop: set<char>): nat {
    if s == "" || s[0] in stop then 0 else 1 + Span(s[1..], stop)
  }

  lemma {:induction false} SpanOfToken(t: string, x: string, stop: set<char>)
    requires Ends(t, x, stop)
    ensures Span(t + x, stop) == |t|
  {
    if t == "" {
      assert t + x == x;
    } else {
      assert (t + x)[1..] == t[1..] + x && t[0] in t;
      SpanOfToken(t[1..], x, stop);
    }
  }

  lemma TokenIsUnique(t: string, x: string, u: string, y: string, stop: set<char>)
    requires Ends(t, x, stop) && Ends(u, y, stop) && t + x == u + y
    ensures t == u && x == y
  {
    SpanOfToken(t, x, stop);
    SpanOfToken(u, y, stop);
    assert t == (t + x)[..|t|] && u == (u + y)[..|u|];
    assert x == (t + x)[|t|..] && y == (u + y)[|u|..];
  }

  lemma SignedDecimalChars(n: int)
    ensures forall c | c in SignedDecimal(n) :: IsDigitChar(c) || c == '-'
    ensures n < 0 <==> SignedDecimal(n)[0] == '-'
  {
    assert SignedDecimal(n)[0] in SignedDecimal(n);
  }

  lemma SignedDecimalIsInjective(m: int, n: int)
    requires SignedDecimal(m) == SignedDecimal(n)
    ensures m == n
  {
    SignedDecimalChars(m);
    SignedDecimalChars(n);
    if m < 0 {
      assert SignedDecimal(m)[1..] == Decimal(-m) && SignedDecimal(n)[1..] == Decimal(-n);
      DecimalIsInjective(-m, -n);
    } else {
      DecimalIsInjective(m, n);
    }
  }

  lemma RatTextIsInjective(f: Fraction, g: Fraction)
    requires f.den > 0 && g.den > 0 && RatText(f) == RatText(g)
    ensures f == g
  {
    SignedDecimalChars(f.num);
    SignedDecimalChars(g.num);
    var s, t := SignedDecimal(f.num), SignedDecimal(g.num);
    assert RatText(f) == s + ("/" + Decimal(f.den)) && RatText(g) == t + ("/" + Decimal(g.den));
    TokenIsUnique(s, "/" + Decimal(f.den), t, "/" + Decimal(g.den), {'/'});
    SignedDecimalIsInjective(f.num, g.num);
    assert ("/" + Decimal(f.den))[1..] == Decimal(f.den);
    assert ("/" + Decimal(g.den))[1..] == Decimal(g.den);
    DecimalIsInjective(f.den, g.den);
  }

  // ---------------------------------------------------------------- quoted strings

  /** How a quoting writes one character: as itself, as a backslash and a letter, or as a backslash, a letter
      and hexadecimal digits. */
  datatype Code = Plain | Letter(letter: char) | Hexadecimal(letter: char, width: nat)

  function HexChar(d: nat): char
    requires d < 16
  {
    if d < 10 then '0' + d as char else 'a' + (d - 10) as char
  }

  function Hex(n: nat, width: nat): (s: string)
    ensures |s| == width
  {
    if width == 0 then "" else Hex(n / 16, width - 1) + [HexChar(n % 16)]
  }

  function Pow16(n: nat): nat { if n == 0 then 1 else 16 * Pow16(n - 1) }

  lemma {:induction false} HexIsInjective(m: nat, n: nat, width: nat)
    requires m < Pow16(width) && n < Pow16(width) && Hex(m, width) == Hex(n, width)
    ensures m == n
  {
    if width > 0 {
      var s, t := Hex(m, width), Hex(n, width);
      assert s[width - 1] == t[width - 1];
      assert s[..width - 1] == Hex(m / 16, width - 1) && t[..width - 1] == Hex(n / 16, width - 1);
      HexIsInjective(m / 16, n / 16, width - 1);
    }
  }

  function Spell(code: Code, c: char): string {
    match code
    case Plain => [c]
    case Letter(l) => ['\\', l]
    case Hexadecimal(l, width) => ['\\', l] + Hex(c as int, width)
  }

  /** The character an escape letter stands for. */
  function Unletter(l: char): char {
    match l
    case 'a' => 7 as char
    case 'b' => 8 as char
    case 'f' => 12 as char
    case 'n' => '\n'
    case 'r' => '\r'
    case 't' => '\t'
    case 'v' => 11 as char
    case _ => l
  }

  function WidthOf(l: char): nat { if l == 'x' then 2 else if l == 'u' then 4 else 8 }

  /** The code of `c` can be read back. */
  predicate Reads(code: Code, c: char) {
    match code
    case Plain => c != '"' && c != '\\'
    case Letter(l) => l !in "xuU" && Unletter(l) == c
    case Hexadecimal(l, width) => l in "xuU" && width == WidthOf(l) && c as int < Pow16(width)
  }

  ghost predicate Readable(code: char -> Code) {
    forall c :: Reads(code(c), c)
  }

  lemma SpellIsUnique(code: char -> Code, c: char, x: string, d: char, y: string)
    requires Readable(code) && Spell(code(c), c) + x == Spell(code(d), d) + y
    ensures c == d && x == y
  {
    assert Reads(code(c), c) && Reads(code(d), d);
    var s, t := Spell(code(c), c), Spell(code(d), d);
    assert s[0] == (s + x)[0] == (t + y)[0] == t[0];
    if code(c).Plain? || code(d).Plain? {
      assert c == d;
    } else {
      assert s[1] == (s + x)[1] == (t + y)[1] == t[1];
      if code(c).Hexadecimal? {
        var w := code(c).width;
        assert s[2..] == (s + x)[2..2 + w] == (t + y)[2..2 + w] == t[2..];
        assert s[2..] == Hex(c as int, w) && t[2..] == Hex(d as int, w);
        HexIsInjective(c as int, d as int, w);
      }
    }
    assert s == t;
    assert x == (s + x)[|s|..] && y == (t + y)[|t|..];
  }

  function Body(code: char -> Code, s: string): string {
    if s == "" then "\"" else Spell(code(s[0]), s[0]) + Body(code, s[1..])
  }

  function Quoted(code: char -> Code, s: string): string { "\"" + Body(code, s) }

  lemma BodyStart(code: char -> Code, s: string)
    requires Readable(code)
    ensures Body(code, s) != "" && (Body(code, s)[0] == '"' <==> s == "")
  {
    if s != "" { assert Reads(code(s[0]), s[0]); }
  }

  lemma BodyStep(code: char -> Code, s: string, x: string)
    requires s != ""
    ensures Body(code, s) + x == Spell(code(s[0]), s[0]) + (Body(code, s[1..]) + x)
  {
  }

  lemma {:induction false} BodyIsUnique(code: char -> Code, s: string, x: string, t: string, y: string)
    requires Readable(code) && Body(code, s) + x == Body(code, t) + y
    ensures s == t && x == y
    decreases |s|
  {
    var u, v := Body(code, s) + x, Body(code, t) + y;
    BodyStart(code, s);
    BodyStart(code, t);
    assert u[0] == Body(code, s)[0] && v[0] == Body(code, t)[0];
    if s == "" {
      assert x == u[1..] && y == v[1..];
    } else {
      BodyStep(code, s, x);
      BodyStep(code, t, y);
      SpellIsUnique(code, s[0], Body(code, s[1..]) + x, t[0], Body(code, t[1..]) + y);
      BodyIsUnique(code, s[1..], x, t[1..], y);
      HeadAndTail(s, t);
    }
  }

  lemma HeadAndTail(s: string, t: string)
    requires s != "" && t != "" && s[0] == t[0] && s[1..] == t[1..]
    ensures s == t
  {
    assert s == [s[0]] + s[1..] && t == [t[0]] + t[1..];
  }

  lemma Concat3(a: string, b: string, c: string)
    ensures (a + b) + c == a + (b + c)
  {
  }

  lemma WordIsUnique(w: string, x: string, y: string)
    requires w + x == w + y
    ensures x == y
  {
    assert x == (w + x)[|w|..] && y == (w + y)[|w|..];
  }

  /** A quoted string followed by anything tells the string and what follows. */
  lemma QuotedIsUnique(code: char -> Code, s: string, x: string, t: string, y: string)
    requires Readable(code) && Quoted(code, s) + x == Quoted(code, t) + y
    ensures s == t && x == y
  {
    Concat3("\"", Body(code, s), x);
    Concat3("\"", Body(code, t), y);
    WordIsUnique("\"", Body(code, s) + x, Body(code, t) + y);
    BodyIsUnique(code, s, x, t, y);
  }

  /** `strconv.Quote`; `printable` is strconv.IsPrint above ASCII. */
  function GoCode(printable: char -> bool, c: char): Code {
    if c == '"' then Letter('"')
    else if c == '\\' then Letter('\\')
    else if c as int == 7 then Letter('a')
    else if c as int == 8 then Letter('b')
    else if c as int == 12 then Letter('f')
    else if c == '\n' then Letter('n')
    else if c == '\r' then Letter('r')
    else if c == '\t' then Letter('t')
    else if c as int == 11 then Letter('v')
    else if c < ' ' || c as int == 127 then Hexadecimal('x', 2)
    else if c as int < 127 || printable(c) then Plain
    else if c as int < 0x10000 then Hexadecimal('u', 4)
    else Hexadecimal('U', 8)
  }

  /** `json.Marshal` of a string, with its HTML escapes. */
  function JsonCode(c: char): Code {
    if c == '"' then Letter('"')
    else if c == '\\' then Letter('\\')
    else if c as int == 8 then Letter('b')
    else if c as int == 12 then Letter('f')
    else if c == '\n' then Letter('n')
    else if c == '\r' then Letter('r')
    else if c == '\t' then Letter('t')
    else if c < ' ' || c == '<' || c == '>' || c == '&' || c as int == 0x2028 || c as int == 0x2029
      then Hexadecimal('u', 4)
    else Plain
  }

  lemma QuotingsAreReadable(printable: char -> bool)
    ensures Readable(c => GoCode(printable, c)) && Readable(c => JsonCode(c))
  {
    assert Pow16(2) == 256;
    assert Pow16(4) == 256 * Pow16(2);
    assert Pow16(6) == 256 * Pow16(4);
    assert Pow16(8) == 256 * Pow16(6);
    forall c: char ensures Reads(GoCode(printable, c), c) && Reads(JsonCode(c), c) {
    }
  }

  // ---------------------------------------------------------------- keys

  /** What the key depends on outside this package: which literals big.Rat reads (it refuses excessive
      exponents), and which characters strconv.Quote prints as they are. */
  datatype Env = Env(readable: Literal -> bool, printable: char -> bool)

  function NumberKey(env: Env, l: Literal): string {
    "n" + if env.readable(l) then RatText(Lowest(Value(l))) else LiteralText(l)
  }

  /** `equalityKey`. */
  function Key(env: Env, v: Json): string
    decreases v, 1
  {
    match v
    case Null => "vnull"
    case Bool(b) => if b then "vtrue" else "vfalse"
    case Num(l) => NumberKey(env, l)
    case Str(s) => "v" + Quoted(c => JsonCode(c), s)
    case Arr(_) => "[" + (Join(ItemKeys(env, v), ",") + "]")
    case Obj(m) => "{" + (Join(MemberKeys(env, v, Sorted(m.Keys)), ",") + "}")
  }

  function ItemKeys(env: Env, v: Json): (r: seq<string>)
    requires v.Arr?
    ensures |r| == |v.items|
    decreases v, 0
  {
    seq(|v.items|, i requires 0 <= i < |v.items| => Key(env, v.items[i]))
  }

  function MemberKeys(env: Env, v: Json, names: seq<string>): (r: seq<string>)
    requires v.Obj? && forall n | n in names :: n in v.members
    ensures |r| == |names|
    decreases v, 0
  {
    seq(|names|, i requires 0 <= i < |names| =>
      Quoted(c => GoCode(env.printable, c), names[i]) + (":" + Key(env, v.members[names[i]])))
  }

  /** Numbers are compared by their exact value; one that big.Rat cannot read, by its text. */
  predicate SameNumber(env: Env, a: Literal, b: Literal) {
    if env.readable(a) && env.readable(b) then SameValue(Value(a), Value(b))
    else !env.readable(a) && !env.readable(b) && LiteralText(a) == LiteralText(b)
  }

  /** Instance equality (section 4.2.2 of JSON Schema Core 2020-12): numbers by value, objects unordered. */
  predicate SameJson(env: Env, a: Json, b: Json)
    decreases a
  {
    match a
    case Num(l) => b.Num? && SameNumber(env, l, b.lit)
    case Arr(items) => b.Arr? && |b.items| == |items| && forall i | 0 <= i < |items| :: SameJson(env, items[i], b.items[i])
    case Obj(m) => b.Obj? && b.members.Keys == m.Keys && forall k | k in m :: SameJson(env, m[k], b.members[k])
    case _ => a == b
  }

  // ---------------------------------------------------------------- equal values have equal keys

  lemma {:induction false} SameValueSameKey(env: Env, a: Json, b: Json)
    requires SameJson(env, a, b)
    ensures Key(env, a) == Key(env, b)
    decreases a
  {
    match a
    case Num(l) =>
      if env.readable(l) { LowestIsCanonical(Value(l), Value(b.lit)); }
    case Arr(items) =>
      forall i | 0 <= i < |items| ensures Key(env, items[i]) == Key(env, b.items[i]) {
        SameValueSameKey(env, items[i], b.items[i]);
      }
      assert ItemKeys(env, a) == ItemKeys(env, b);
    case Obj(m) =>
      forall k | k in m ensures Key(env, m[k]) == Key(env, b.members[k]) {
        SameValueSameKey(env, m[k], b.members[k]);
      }
      assert MemberKeys(env, a, Sorted(m.Keys)) == MemberKeys(env, b, Sorted(m.Keys));
    case _ =>
  }

  // ---------------------------------------------------------------- equal keys mean equal values

  const STOP: set<char> := {',', ']', '}'}

  /** What can follow a key: nothing, or the end or separator of an enclosing array or object. */
  predicate Follows(x: string) { x == "" || x[0] in STOP }

  /** What comes after the first of the keys in `parts` in a joined list that `close` ends. */
  function Rest(parts: seq<string>, close: string): string
    requires parts != []
  {
    if |parts| == 1 then close else "," + (Join(parts[1..], ",") + close)
  }

  lemma JoinFirst(parts: seq<string>, close: string)
    requires parts != []
    ensures Join(parts, ",") + close == parts[0] + Rest(parts, close)
  {
    if |parts| > 1 {
      assert Join(parts, ",") + close == parts[0] + ("," + (Join(parts[1..], ",") + close));
    }
  }

  lemma NumberKeyIsUnique(env: Env, l: Literal, x: string, k: Literal, y: string)
    requires Follows(x) && Follows(y) && NumberKey(env, l) + x == NumberKey(env, k) + y
    ensures SameNumber(env, l, k) && x == y
  {
    NumberKeyChars(env, l);
    NumberKeyChars(env, k);
    TokenIsUnique(NumberKey(env, l), x, NumberKey(env, k), y, STOP);
    var s, t := NumberKey(env, l), NumberKey(env, k);
    assert s[1..] == t[1..];
    if env.readable(l) {
      assert s[1..] == RatText(Lowest(Value(l))) && t[1..] == RatText(Lowest(Value(k)));
      RatTextIsInjective(Lowest(Value(l)), Lowest(Value(k)));
      LowestIsCanonical(Value(l), Value(k));
    } else {
      assert s[1..] == LiteralText(l) && t[1..] == LiteralText(k);
    }
  }

  lemma PrefixedChars(text: string)
    requires forall c | c in text :: c !in STOP
    ensures ("n" + text)[1..] == text && forall c | c in "n" + text :: c !in STOP
  {
  }

  lemma ReadableKeyChars(env: Env, l: Literal)
    requires env.readable(l)
    ensures (forall c | c in NumberKey(env, l) :: c !in STOP) && '/' in NumberKey(env, l)[1..]
  {
    PrefixedChars(RatText(Lowest(Value(l))));
  }

  lemma NumberChar(c: char)
    requires IsNumberChar(c)
    ensures c !in STOP && c != '/'
  {
  }

  lemma NumberTextChars(s: string)
    requires NumberText(s)
    ensures (forall c | c in s :: c !in STOP) && '/' !in s
  {
    forall c | c in s ensures c !in STOP && c != '/' { NumberChar(c); }
  }

  lemma UnreadableKeyChars(env: Env, l: Literal)
    requires !env.readable(l)
    ensures (forall c | c in NumberKey(env, l) :: c !in STOP) && '/' !in NumberKey(env, l)[1..]
  {
    var text := LiteralText(l);
    LiteralTextChars(l);
    NumberTextChars(text);
    PrefixedChars(text);
    assert NumberKey(env, l) == "n" + text;
  }

  /** A number's key holds no separator, and a slash exactly when big.Rat read it. */
  lemma NumberKeyChars(env: Env, l: Literal)
    ensures forall c | c in NumberKey(env, l) :: c !in STOP
    ensures env.readable(l) <==> '/' in NumberKey(env, l)[1..]
  {
    if env.readable(l) { ReadableKeyChars(env, l); } else { UnreadableKeyChars(env, l); }
  }

  /** The first characters of a key tell which kind of value it encodes. */
  lemma KeyStart(env: Env, v: Json, x: string)
    ensures Key(env, v) != "" && (Key(env, v)[0] == 'v' ==> |Key(env, v)| >= 2)
    ensures var k := Key(env, v) + x;
            match v
            case Null => k[0] == 'v' && k[1] == 'n'
            case Bool(b) => k[0] == 'v' && k[1] == (if b then 't' else 'f')
            case Num(_) => k[0] == 'n'
            case Str(_) => k[0] == 'v' && k[1] == '"'
            case Arr(_) => k[0] == '['
            case Obj(_) => k[0] == '{'
  {
  }

  /** A joined list followed by its closing bracket starts with that bracket exactly when it is empty. */
  lemma ItemsStart(env: Env, v: Json, i: nat, ps: seq<string>, x: string)
    requires v.Arr? && i <= |v.items| && ps == ItemKeys(env, v)[i..]
    ensures var t := Join(ps, ",") + ("]" + x);
            t != "" && (t[0] == ']' <==> ps == [])
  {
    if ps != [] {
      JoinFirst(ps, "]" + x);
      KeyStart(env, v.items[i], "");
    }
  }

  lemma MembersStart(env: Env, v: Json, names: seq<string>, x: string)
    requires v.Obj? && forall n | n in names :: n in v.members
    ensures var t := Join(MemberKeys(env, v, names), ",") + ("}" + x);
            t != "" && (t[0] == '}' <==> names == [])
  {
    if names != [] {
      JoinFirst(MemberKeys(env, v, names), "}" + x);
    }
  }

  lemma RestFollows(parts: seq<string>, close: string)
    requires parts != [] && close != "" && close[0] in STOP
    ensures Follows(Rest(parts, close))
  {
  }

  lemma NothingJoined(close: string, x: string, y: string)
    requires |close| == 1
    ensures Join([], ",") + (close + x) == close + x
    ensures Join([], ",") + (close + x) == Join([], ",") + (close + y) ==> x == y
  {
    assert (close + x)[1..] == x && (close + y)[1..] == y;
  }

  lemma SameWhenRestIs(names: seq<string>, others: seq<string>)
    requires names != [] && others != [] && names[0] == others[0] && names[1..] == others[1..]
    ensures names == others && forall n | n in names :: n == names[0] || n in names[1..]
  {
    assert names == [names[0]] + names[1..] && others == [others[0]] + others[1..];
  }

  /** The lists end at the same place. */
  lemma ItemsEnd(env: Env, a: Json, ps: seq<string>, x: string, b: Json, qs: seq<string>, y: string, i: nat)
    requires a.Arr? && b.Arr? && i <= |a.items| && i <= |b.items|
    requires ps == ItemKeys(env, a)[i..] && qs == ItemKeys(env, b)[i..]
    requires Join(ps, ",") + ("]" + x) == Join(qs, ",") + ("]" + y)
    ensures i == |a.items| <==> i == |b.items|
    ensures i == |a.items| ==> x == y
  {
    ItemsStart(env, a, i, ps, x);
    ItemsStart(env, b, i, qs, y);
    if ps == [] { NothingJoined("]", x, y); }
  }

  ghost predicate SameFrom(env: Env, a: Json, b: Json, i: nat)
    requires a.Arr? && b.Arr?
  {
    |a.items| == |b.items| && forall k | i <= k < |a.items| :: SameJson(env, a.items[k], b.items[k])
  }

  lemma SameFromOneBefore(env: Env, a: Json, b: Json, i: nat)
    requires a.Arr? && b.Arr? && i < |a.items| && i < |b.items|
    requires SameJson(env, a.items[i], b.items[i]) && SameFrom(env, a, b, i + 1)
    ensures SameFrom(env, a, b, i)
  {
  }

  /** Equal list texts from position `i` on: the lists have equal entries there, and what follows is equal. */
  lemma ItemsAreUnique(env: Env, a: Json, ps: seq<string>, x: string, b: Json, qs: seq<string>, y: string, i: nat)
    requires a.Arr? && b.Arr? && i <= |a.items| && i <= |b.items|
    requires ps == ItemKeys(env, a)[i..] && qs == ItemKeys(env, b)[i..]
    requires Join(ps, ",") + ("]" + x) == Join(qs, ",") + ("]" + y)
    ensures SameFrom(env, a, b, i) && x == y
    decreases a, 0, |a.items| - i
  {
    ItemsEnd(env, a, ps, x, b, qs, y, i);
    if i < |a.items| {
      var u, v := Rest(ps, "]" + x), Rest(qs, "]" + y);
      FirstItemIsUnique(env, a, ps, x, b, qs, y, i);
      KeyIsUnique(env, a.items[i], u, b.items[i], v);
      RestIsUnique(ps, "]" + x, qs, "]" + y);
      ItemsAreUnique(env, a, ps[1..], x, b, qs[1..], y, i + 1);
      SameFromOneBefore(env, a, b, i);
    }
  }

  lemma FirstItemIsUnique(env: Env, a: Json, ps: seq<string>, x: string, b: Json, qs: seq<string>, y: string, i: nat)
    requires a.Arr? && b.Arr? && i < |a.items| && i < |b.items|
    requires ps == ItemKeys(env, a)[i..] && qs == ItemKeys(env, b)[i..]
    requires Join(ps, ",") + ("]" + x) == Join(qs, ",") + ("]" + y)
    ensures ps[1..] == ItemKeys(env, a)[i + 1..] && qs[1..] == ItemKeys(env, b)[i + 1..]
    ensures Follows(Rest(ps, "]" + x)) && Follows(Rest(qs, "]" + y))
    ensures Key(env, a.items[i]) + Rest(ps, "]" + x) == Key(env, b.items[i]) + Rest(qs, "]" + y)
  {
    JoinFirst(ps, "]" + x);
    JoinFirst(qs, "]" + y);
    RestFollows(ps, "]" + x);
    RestFollows(qs, "]" + y);
  }

  lemma RestIsUnique(ps: seq<string>, c: string, qs: seq<string>, d: string)
    requires ps != [] && qs != [] && Rest(ps, c) == Rest(qs, d)
    requires c != "" && d != "" && c[0] != ',' && d[0] != ','
    ensures Join(ps[1..], ",") + c == Join(qs[1..], ",") + d
    ensures |ps| == 1 <==> |qs| == 1
  {
    assert (|ps| == 1) == (Rest(ps, c)[0] != ',') && (|qs| == 1) == (Rest(qs, d)[0] != ',');
    if |ps| > 1 {
      assert Rest(ps, c)[1..] == Join(ps[1..], ",") + c && Rest(qs, d)[1..] == Join(qs[1..], ",") + d;
    }
  }

  lemma FirstMemberKey(env: Env, v: Json, names: seq<string>)
    requires v.Obj? && names != [] && forall n | n in names :: n in v.members
    ensures MemberKeys(env, v, names)[0] ==
            Quoted(c => GoCode(env.printable, c), names[0]) + (":" + Key(env, v.members[names[0]]))
    ensures MemberKeys(env, v, names)[1..] == MemberKeys(env, v, names[1..])
  {
  }

  lemma Spread(q: string, k: string, rest: string)
    ensures (q + (":" + k)) + rest == q + (":" + (k + rest))
  {
    Concat3(q, ":" + k, rest);
    Concat3(":", k, rest);
  }

  /** The text of a member list starts with its first name, quoted, a colon, its value, and the rest. */
  lemma MembersStep(env: Env, v: Json, names: seq<string>, x: string)
    requires v.Obj? && names != [] && forall n | n in names :: n in v.members
    ensures Join(MemberKeys(env, v, names), ",") + ("}" + x) ==
            Quoted(c => GoCode(env.printable, c), names[0]) +
            (":" + (Key(env, v.members[names[0]]) + Rest(MemberKeys(env, v, names), "}" + x)))
    ensures MemberKeys(env, v, names)[1..] == MemberKeys(env, v, names[1..])
  {
    var parts := MemberKeys(env, v, names);
    FirstMemberKey(env, v, names);
    JoinFirst(parts, "}" + x);
    Spread(Quoted(c => GoCode(env.printable, c), names[0]), Key(env, v.members[names[0]]), Rest(parts, "}" + x));
  }

  lemma MembersAreUnique(env: Env, a: Json, names: seq<string>, x: string, b: Json, others: seq<string>, y: string)
    requires a.Obj? && forall n | n in names :: n in a.members
    requires b.Obj? && forall n | n in others :: n in b.members
    requires Join(MemberKeys(env, a, names), ",") + ("}" + x) == Join(MemberKeys(env, b, others), ",") + ("}" + y)
    ensures names == others && x == y
    ensures forall n | n in names :: SameJson(env, a.members[n], b.members[n])
    decreases a, 0, |names|
  {
    MembersStart(env, a, names, x);
    MembersStart(env, b, others, y);
    if names == [] {
      assert MemberKeys(env, a, names) == [] && MemberKeys(env, b, others) == [];
      NothingJoined("}", x, y);
    } else {
      FirstMemberIsUnique(env, a, names, x, b, others, y);
      var ps, qs := MemberKeys(env, a, names), MemberKeys(env, b, others);
      KeyIsUnique(env, a.members[names[0]], Rest(ps, "}" + x), b.members[others[0]], Rest(qs, "}" + y));
      RestIsUnique(ps, "}" + x, qs, "}" + y);
      MembersAreUnique(env, a, names[1..], x, b, others[1..], y);
      SameWhenRestIs(names, others);
    }
  }

  lemma FirstMemberIsUnique(env: Env, a: Json, names: seq<string>, x: string, b: Json, others: seq<string>, y: string)
    requires a.Obj? && names != [] && forall n | n in names :: n in a.members
    requires b.Obj? && others != [] && forall n | n in others :: n in b.members
    requires Join(MemberKeys(env, a, names), ",") + ("}" + x) == Join(MemberKeys(env, b, others), ",") + ("}" + y)
    ensures var ps, qs := MemberKeys(env, a, names), MemberKeys(env, b, others);
            names[0] == others[0] && ps[1..] == MemberKeys(env, a, names[1..]) &&
            qs[1..] == MemberKeys(env, b, others[1..]) &&
            Follows(Rest(ps, "}" + x)) && Follows(Rest(qs, "}" + y)) &&
            Key(env, a.members[names[0]]) + Rest(ps, "}" + x) == Key(env, b.members[others[0]]) + Rest(qs, "}" + y)
  {
    var ps, qs := MemberKeys(env, a, names), MemberKeys(env, b, others);
    MembersStep(env, a, names, x);
    MembersStep(env, b, others, y);
    var u := Key(env, a.members[names[0]]) + Rest(ps, "}" + x);
    var v := Key(env, b.members[others[0]]) + Rest(qs, "}" + y);
    QuotingsAreReadable(env.printable);
    QuotedIsUnique(c => GoCode(env.printable, c), names[0], ":" + u, others[0], ":" + v);
    WordIsUnique(":", u, v);
    RestFollows(ps, "}" + x);
    RestFollows(qs, "}" + y);
  }

  lemma ArrayText(env: Env, v: Json, x: string)
    requires v.Arr?
    ensures (Key(env, v) + x)[1..] == Join(ItemKeys(env, v), ",") + ("]" + x)
  {
  }

  lemma ObjectText(env: Env, v: Json, x: string)
    requires v.Obj?
    ensures (Key(env, v) + x)[1..] == Join(MemberKeys(env, v, Sorted(v.members.Keys)), ",") + ("}" + x)
  {
  }

  lemma StringKeyIsUnique(s: string, x: string, t: string, y: string)
    requires ("v" + Quoted(c => JsonCode(c), s)) + x == ("v" + Quoted(c => JsonCode(c), t)) + y
    ensures s == t && x == y
  {
    var code := (c: char) => JsonCode(c);
    var u, v := Quoted(code, s), Quoted(code, t);
    Concat3("v", u, x);
    Concat3("v", v, y);
    WordIsUnique("v", u + x, v + y);
    QuotingsAreReadable(c => true);
    QuotedIsUnique(code, s, x, t, y);
  }

  /** A key is self-delimiting: equal texts start with keys of equal values. */
  lemma KeyIsUnique(env: Env, a: Json, x: string, b: Json, y: string)
    requires Follows(x) && Follows(y) && Key(env, a) + x == Key(env, b) + y
    ensures SameJson(env, a, b) && x == y
    decreases a, 1, 0
  {
    KeyStart(env, a, x);
    KeyStart(env, b, y);
    match a
    case Null => WordIsUnique("vnull", x, y);
    case Bool(v) => WordIsUnique(if v then "vtrue" else "vfalse", x, y);
    case Num(l) => NumberKeyIsUnique(env, l, x, b.lit, y);
    case Str(text) => StringKeyIsUnique(text, x, b.s, y);
    case Arr(_) =>
      ArrayText(env, a, x);
      ArrayText(env, b, y);
      ItemsAreUnique(env, a, ItemKeys(env, a), x, b, ItemKeys(env, b), y, 0);
    case Obj(_) =>
      ObjectText(env, a, x);
      ObjectText(env, b, y);
      ObjectsAreUnique(env, a, x, b, y);
  }

  lemma ObjectsAreUnique(env: Env, a: Json, x: string, b: Json, y: string)
    requires a.Obj? && b.Obj?
    requires Join(MemberKeys(env, a, Sorted(a.members.Keys)), ",") + ("}" + x) ==
             Join(MemberKeys(env, b, Sorted(b.members.Keys)), ",") + ("}" + y)
    ensures SameJson(env, a, b) && x == y
    decreases a, 0, |a.members| + 1
  {
    var names, others := Sorted(a.members.Keys), Sorted(b.members.Keys);
    MembersAreUnique(env, a, names, x, b, others, y);
    assert forall k :: k in a.members.Keys <==> k in names;
    assert forall k :: k in b.members.Keys <==> k in others;
  }

  /** Keys are equal exactly for equal JSON values. */
  lemma KeyDecidesEquality(env: Env, a: Json, b: Json)
    ensures Key(env, a) == Key(env, b) <==> SameJson(env, a, b)
  {
    if Key(env, a) == Key(env, b) {
      assert Key(env, a) + "" == Key(env, b) + "";
      KeyIsUnique(env, a, "", b, "");
    }
    if SameJson(env, a, b) {
      SameValueSameKey(env, a, b);
    }
  }

  /** A number with an exponent has the key of the number written out, and one with a zero after its last digit behind
      the point that of the number without, where both are read. */
  lemma SpellingsShareAKey(env: Env, neg: bool, whole: seq<Digit>, upper: bool, sign: Sign, digits: seq<Digit>, l: Literal)
    requires sign != Minus
    ensures var short := Literal(neg, whole, [], Exponent(upper, sign, digits));
            var long := Literal(neg, whole + Literals.Zeros(DigitsValue(digits)), [], NoExponent);
            env.readable(short) && env.readable(long) ==> Key(env, Num(short)) == Key(env, Num(long))
    ensures var long := l.(frac := l.frac + [0]);
            env.readable(l) && env.readable(long) ==> Key(env, Num(l)) == Key(env, Num(long))
  {
    var short := Literal(neg, whole, [], Exponent(upper, sign, digits));
    var long := Literal(neg, whole + Literals.Zeros(DigitsValue(digits)), [], NoExponent);
    Literals.ExponentWritesZeros(neg, whole, upper, sign, digits);
    LowestIsCanonical(Value(short), Value(long));
    Literals.TrailingZeroIsNothing(l);
    LowestIsCanonical(Value(l), Value(l.(frac := l.frac + [0])));
  }

  /** So 1e2 repeats 100. */
  lemma HundredIsRepeated(env: Env, hundred: Literal, short: Literal)
    requires hundred == Literal(false, [1, 0, 0], [], NoExponent) && env.readable(hundred)
    requires short == Literal(false, [1], [], Exponent(false, NoSign, [2])) && env.readable(short)
    ensures Key(env, Num(short)) == Key(env, Num(hundred))
    ensures SameJson(env, Num(short), Num(hundred))
  {
    Literals.OneDigit(2);
    assert [1 as Digit] + Literals.Zeros(2) == [1, 0, 0];
    SpellingsShareAKey(env, false, [1], false, NoSign, [2], short);
    KeyDecidesEquality(env, Num(short), Num(hundred));
  }

  // ---------------------------------------------------------------- uniqueItems

  /** No two of the first `n` entries are equal. */
  ghost predicate AllDifferent(env: Env, items: seq<Json>, n: nat)
    requires n <= |items|
  {
    forall j, i | 0 <= j < i < n :: !SameJson(env, items[j], items[i])
  }

  /** Entry `i` equals the earlier entry `j`, no two entries before `i` are equal, and `j` is the first entry
      equal to `i`. */
  ghost predicate FirstRepeat(env: Env, items: seq<Json>, i: nat, j: nat) {
    && j < i < |items| && SameJson(env, items[j], items[i])
    && AllDifferent(env, items, i)
    && forall k | 0 <= k < j :: !SameJson(env, items[k], items[i])
  }

  lemma FirstHasNoEarlier(env: Env, items: seq<Json>, i: nat, j: nat)
    requires j < i < |items| && AllDifferent(env, items, i) && Key(env, items[j]) == Key(env, items[i])
    ensures FirstRepeat(env, items, i, j)
  {
    KeyDecidesEquality(env, items[j], items[i]);
    forall k | 0 <= k < j ensures !SameJson(env, items[k], items[i]) {
      KeyDecidesEquality(env, items[k], items[i]);
      KeyDecidesEquality(env, items[k], items[j]);
    }
  }

  lemma ExtendDifferent(env: Env, items: seq<Json>, i: nat)
    requires i < |items| && AllDifferent(env, items, i)
    requires forall n | 0 <= n < i :: Key(env, items[n]) != Key(env, items[i])
    ensures AllDifferent(env, items, i + 1)
  {
    forall j | 0 <= j < i ensures !SameJson(env, items[j], items[i]) {
      KeyDecidesEquality(env, items[j], items[i]);
    }
  }

  /** The `uniqueItems` check: it refuses exactly the arrays with two equal entries and names the first
      repeat and what it repeats. */
  method Repeat(env: Env, items: seq<Json>) returns (found: bool, i: nat, j: nat)
    ensures found ==> FirstRepeat(env, items, i, j)
    ensures !found ==> AllDifferent(env, items, |items|)
  {
    var first: map<string, nat> := map[];
    i, j := 0, 0;
    while i < |items|
      invariant i <= |items|
      invariant forall n | 0 <= n < i :: Key(env, items[n]) in first
      invariant forall k | k in first :: first[k] < i && Key(env, items[first[k]]) == k
      invariant AllDifferent(env, items, i)
    {
      var key := Key(env, items[i]);
      if key in first {
        j := first[key];
        FirstHasNoEarlier(env, items, i, j);
        return true, i, j;
      }
      ExtendDifferent(env, items, i);
      first := first[key := i];
      i := i + 1;
    }
    return false, 0, 0;
  }
}
