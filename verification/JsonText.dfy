/** JSON texts as RFC 8259 writes them (sections 2, 4, 5, 6 and 7), with their white space, and recognizers for
    the two kinds of value a request id can have. A byte is written as the character of its code. */
module JsonText {
  import opened Json
  import opened Numerals

  predicate IsBlank(c: char) { c == ' ' || c == '\t' || c == '\n' || c == '\r' }

  predicate Blank(s: string) { forall c | c in s :: IsBlank(c) }

  /** A piece of a string's body: a byte as itself, a two-character escape, or a \u escape. */
  datatype Piece = Raw(c: char) | Escape(letter: char) | Unicode(h0: char, h1: char, h2: char, h3: char)

  predicate IsHex(c: char) { IsDigitChar(c) || 'a' <= c <= 'f' || 'A' <= c <= 'F' }

  predicate IsRaw(c: char) { c >= ' ' && c != '"' && c != '\\' }

  predicate IsEscapeLetter(c: char) { c in "\"\\/bfnrt" }

  predicate GoodPiece(p: Piece) {
    match p
    case Raw(c) => IsRaw(c)
    case Escape(l) => IsEscapeLetter(l)
    case Unicode(a, b, c, d) => IsHex(a) && IsHex(b) && IsHex(c) && IsHex(d)
  }

  function PieceText(p: Piece): string {
    match p
    case Raw(c) => [c]
    case Escape(l) => ['\\', l]
    case Unicode(a, b, c, d) => ['\\', 'u', a, b, c, d]
  }

  function BodyText(body: seq<Piece>): string {
    if body == [] then "" else PieceText(body[0]) + BodyText(body[1..])
  }

  function StringText(body: seq<Piece>): string { "\"" + (BodyText(body) + "\"") }

  predicate GoodString(body: seq<Piece>) { forall p | p in body :: GoodPiece(p) }

  predicate GoodNumber(l: Literal) {
    l.whole != [] && (l.whole[0] == 0 ==> |l.whole| == 1) && (l.exp.Exponent? ==> l.exp.digits != [])
  }

  datatype Word = True | False | NullWord

  function WordText(w: Word): string {
    match w case True => "true" case False => "false" case NullWord => "null"
  }

  /** A value with the white space inside it; `blank` fills an array or object without entries. */
  datatype Text =
    | Plain(word: Word)
    | Number(lit: Literal)
    | String(body: seq<Piece>)
    | Array(blank: string, elements: seq<Element>)
    | Object(blank: string, members: seq<Member>)

  datatype Element = Element(before: string, value: Text, after: string)

  /** A member: white space, the key, white space, a colon, white space, the value, white space. */
  datatype Member = Member(before: string, key: seq<Piece>, colon: string, gap: string, value: Text, after: string)

  predicate Good(t: Text)
    decreases t
  {
    match t
    case Plain(_) => true
    case Number(l) => GoodNumber(l)
    case String(body) => GoodString(body)
    case Array(blank, es) =>
      Blank(blank) && forall e | e in es :: Blank(e.before) && Good(e.value) && Blank(e.after)
    case Object(blank, ms) =>
      Blank(blank) && forall m | m in ms :: GoodMember(m)
  }

  predicate GoodMember(m: Member)
    decreases m
  {
    Blank(m.before) && GoodString(m.key) && Blank(m.colon) && Blank(m.gap) && Good(m.value) && Blank(m.after)
  }

  function Print(t: Text): string
    decreases t
  {
    match t
    case Plain(w) => WordText(w)
    case Number(l) => LiteralText(l)
    case String(body) => StringText(body)
    case Array(blank, es) => "[" + ((if es == [] then blank else ElementsText(es)) + "]")
    case Object(blank, ms) => "{" + ((if ms == [] then blank else MembersText(ms)) + "}")
  }

  function ElementsText(es: seq<Element>): string
    requires es != []
    decreases es
  {
    var first := es[0].before + (Print(es[0].value) + es[0].after);
    if |es| == 1 then first else first + ("," + ElementsText(es[1..]))
  }

  function MemberText(m: Member): string
    decreases m
  {
    m.before + (StringText(m.key) + (m.colon + (":" + (m.gap + (Print(m.value) + m.after)))))
  }

  function MembersText(ms: seq<Member>): string
    requires ms != []
    decreases ms
  {
    if |ms| == 1 then MemberText(ms[0]) else MemberText(ms[0]) + ("," + MembersText(ms[1..]))
  }

  // ---------------------------------------------------------------- recognizing strings and numbers

  /** A string's body and its closing quote, and nothing after it. */
  predicate ValidBody(s: string)
    decreases |s|
  {
    s != "" &&
    if s[0] == '"' then |s| == 1
    else if s[0] == '\\' then
      |s| >= 2 &&
      if s[1] == 'u'
      then |s| >= 6 && IsHex(s[2]) && IsHex(s[3]) && IsHex(s[4]) && IsHex(s[5]) && ValidBody(s[6..])
      else IsEscapeLetter(s[1]) && ValidBody(s[2..])
    else IsRaw(s[0]) && ValidBody(s[1..])
  }

  predicate ValidString(s: string) { s != "" && s[0] == '"' && ValidBody(s[1..]) }

  function DropDigits(s: string): (r: string)
    ensures r == "" || !IsDigitChar(r[0])
  {
    if s != "" && IsDigitChar(s[0]) then DropDigits(s[1..]) else s
  }

  predicate StartsWithDigit(s: string) { s != "" && IsDigitChar(s[0]) }

  predicate ValidExponent(s: string) {
    s == "" ||
    ((s[0] == 'e' || s[0] == 'E') &&
     var d := if |s| > 1 && (s[1] == '+' || s[1] == '-') then s[2..] else s[1..];
     StartsWithDigit(d) && DropDigits(d) == "")
  }

  predicate ValidFraction(s: string) {
    if s != "" && s[0] == '.' then StartsWithDigit(s[1..]) && ValidExponent(DropDigits(s[1..])) else ValidExponent(s)
  }

  predicate ValidNumber(s: string) {
    var d := if s != "" && s[0] == '-' then s[1..] else s;
    StartsWithDigit(d) && ValidFraction(if d[0] == '0' then d[1..] else DropDigits(d))
  }

  // The recognizers accept exactly what the grammar writes.

  lemma {:induction false} PrintedBodyIsValid(body: seq<Piece>)
    requires GoodString(body)
    ensures ValidBody(BodyText(body) + "\"")
  {
    if body != [] {
      PrintedBodyIsValid(body[1..]);
      var p, rest := body[0], BodyText(body[1..]) + "\"";
      assert BodyText(body) + "\"" == PieceText(p) + rest;
      assert GoodPiece(p);
    }
  }

  function ParseBody(s: string): (body: seq<Piece>)
    requires ValidBody(s)
    ensures GoodString(body) && BodyText(body) + "\"" == s
    decreases |s|
  {
    if s[0] == '"' then []
    else
      var p := if s[0] != '\\' then Raw(s[0]) else if s[1] == 'u' then Unicode(s[2], s[3], s[4], s[5]) else Escape(s[1]);
      var rest := ParseBody(s[|PieceText(p)|..]);
      assert s == PieceText(p) + (BodyText(rest) + "\"");
      assert BodyText([p] + rest) == PieceText(p) + BodyText(rest);
      [p] + rest
  }

  lemma ValidStringIsGrammar(s: string)
    ensures ValidString(s) <==> exists body :: GoodString(body) && StringText(body) == s
  {
    if ValidString(s) {
      var body := ParseBody(s[1..]);
      assert StringText(body) == s;
    }
    if body :| GoodString(body) && StringText(body) == s {
      PrintedBodyIsValid(body);
      assert s[1..] == BodyText(body) + "\"";
    }
  }

  lemma {:induction false} DropPrintedDigits(ds: seq<Digit>, rest: string)
    requires rest == "" || !IsDigitChar(rest[0])
    ensures DropDigits(DigitsText(ds) + rest) == rest
  {
    var s := DigitsText(ds) + rest;
    if ds == [] {
      assert s == rest;
    } else {
      assert s[1..] == DigitsText(ds[1..]) + rest;
      DropPrintedDigits(ds[1..], rest);
    }
  }

  lemma PrintedExponentIsValid(e: Exponent)
    requires e.Exponent? ==> e.digits != []
    ensures ValidExponent(ExponentText(e)) && !StartsWithDigit(ExponentText(e))
    ensures ExponentText(e) != "" ==> ExponentText(e)[0] != '.'
  {
    if e.Exponent? {
      var d, s := DigitsText(e.digits), ExponentText(e);
      DropPrintedDigits(e.digits, "");
      assert d + "" == d;
      assert s[1..] == SignText(e.sign) + d;
      if e.sign == NoSign {
        assert s[1..] == d && s[1] == d[0];
      } else {
        assert s[1] == SignText(e.sign)[0] && s[2..] == d;
      }
    }
  }

  lemma PrintedTailIsValid(frac: seq<Digit>, e: Exponent)
    requires e.Exponent? ==> e.digits != []
    ensures ValidFraction(TailText(frac, e)) && !StartsWithDigit(TailText(frac, e))
  {
    PrintedExponentIsValid(e);
    if frac != [] {
      assert TailText(frac, e)[1..] == DigitsText(frac) + ExponentText(e);
      DropPrintedDigits(frac, ExponentText(e));
    }
  }

  lemma PrintedNumberIsValid(l: Literal)
    requires GoodNumber(l)
    ensures ValidNumber(LiteralText(l))
  {
    var tail := TailText(l.frac, l.exp);
    PrintedTailIsValid(l.frac, l.exp);
    var d := DigitsText(l.whole) + tail;
    assert d[0] == DigitChar(l.whole[0]);
    if l.neg { assert LiteralText(l)[1..] == d; } else { assert LiteralText(l) == d; }
    DropPrintedDigits(l.whole, tail);
    if l.whole[0] == 0 { assert d[1..] == tail; }
  }

  function Digits(s: string): (ds: seq<Digit>)
    ensures s == DigitsText(ds) + DropDigits(s)
    ensures StartsWithDigit(s) <==> ds != []
    ensures StartsWithDigit(s) ==> ds[0] == (s[0] - '0') as int
  {
    if StartsWithDigit(s) then
      var d: Digit := (s[0] - '0') as int;
      var rest := Digits(s[1..]);
      assert DigitsText([d] + rest) == [s[0]] + DigitsText(rest);
      [d] + rest
    else []
  }

  lemma SignedParts(s: string)
    requires |s| > 1
    ensures s == [s[0]] + ([s[1]] + s[2..])
  {
  }

  function ParseExponent(s: string): (e: Exponent)
    requires ValidExponent(s)
    ensures ExponentText(e) == s && (e.Exponent? ==> e.digits != [])
  {
    if s == "" then NoExponent
    else if |s| > 1 && (s[1] == '+' || s[1] == '-') then
      SignedParts(s);
      Exponent(s[0] == 'E', if s[1] == '+' then Plus else Minus, Digits(s[2..]))
    else
      assert s == [s[0]] + ("" + s[1..]);
      Exponent(s[0] == 'E', NoSign, Digits(s[1..]))
  }

  function ParseTail(s: string): (r: (seq<Digit>, Exponent))
    requires ValidFraction(s)
    ensures TailText(r.0, r.1) == s && (r.1.Exponent? ==> r.1.digits != [])
  {
    if s != "" && s[0] == '.' then
      assert s == "." + s[1..];
      (Digits(s[1..]), ParseExponent(DropDigits(s[1..])))
    else ([], ParseExponent(s))
  }

  function ParseNumber(s: string): (l: Literal)
    requires ValidNumber(s)
    ensures GoodNumber(l) && LiteralText(l) == s
  {
    var neg := s[0] == '-';
    var d := if neg then s[1..] else s;
    assert s == (if neg then "-" else "") + d;
    if d[0] == '0' then
      var r := ParseTail(d[1..]);
      assert d == DigitsText([0]) + d[1..];
      Literal(neg, [0], r.0, r.1)
    else
      var r := ParseTail(DropDigits(d));
      Literal(neg, Digits(d), r.0, r.1)
  }

  lemma ValidNumberIsGrammar(s: string)
    ensures ValidNumber(s) <==> exists l :: GoodNumber(l) && LiteralText(l) == s
  {
    if ValidNumber(s) {
      var l := ParseNumber(s);
      assert LiteralText(l) == s;
    }
    if l :| GoodNumber(l) && LiteralText(l) == s {
      PrintedNumberIsValid(l);
    }
  }
}
