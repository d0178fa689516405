/** The streaming scanner for the request id of an oversized message (internal/cli/mcp_id_scan.go). */
module IdScanner {
  import Json
  import opened JsonText
  import opened Numerals
  import opened Wrappers

  const MAX_ID := 256
  const MAX_KEY := 8

  datatype Mode = Start | KeyPos | KeyString | Colon | ValuePos | ValueString | ValueScalar | ValueNested | Comma | Done

  /** The fields of the scanner. */
  datatype State = State(mode: Mode, inString: bool, escaped: bool, nesting: int, isID: bool, buf: string,
                         overflow: bool, id: Option<string>)

  const INITIAL := State(Start, false, false, 0, false, "", false, None)

  function Begin(st: State, mode: Mode, c: char): State {
    st.(mode := mode, buf := [c], overflow := false, inString := false, escaped := false)
  }

  function Limit(mode: Mode): nat { if mode == KeyString then MAX_KEY else MAX_ID }

  function Capture(st: State, c: char): State {
    if |st.buf| >= Limit(st.mode) then st.(overflow := true) else st.(buf := st.buf + [c])
  }

  /** The state after one byte of a string body; the body ends at a quote that is not escaped. */
  function InBody(st: State, c: char): State {
    if st.escaped then st.(escaped := false) else if c == '\\' then st.(escaped := true) else st
  }

  predicate EndsBody(st: State, c: char) { !st.escaped && c == '"' }

  /** json.Valid of a buffer that starts with a quote, a minus or a digit. */
  predicate Valid(buf: string) { ValidString(buf) || ValidNumber(buf) }

  predicate Usable(buf: string, overflow: bool, isString: bool) {
    !overflow && buf != "" && (isString || buf[0] == '-' || IsDigitChar(buf[0])) && Valid(buf)
  }

  function Finish(st: State, isString: bool): State {
    st.(mode := Comma,
        id := if !st.isID then st.id else if Usable(st.buf, st.overflow, isString) then Some(st.buf) else None)
  }

  function NestedStep(st: State, c: char): State {
    if st.inString then
      if EndsBody(st, c) then st.(inString := false) else InBody(st, c)
    else if c == '"' then st.(inString := true)
    else if c == '{' || c == '[' then st.(nesting := st.nesting + 1)
    else if c == '}' || c == ']' then
      if st.nesting == 1 then st.(nesting := 0, id := if st.isID then None else st.id, mode := Comma)
      else st.(nesting := st.nesting - 1)
    else st
  }

  function CommaStep(st: State, c: char): State {
    if IsBlank(c) then st else st.(mode := if c == ',' then KeyPos else Done)
  }

  function ValueStep(st: State, c: char): State {
    if IsBlank(c) then st
    else if c == '"' then Begin(st, ValueString, c)
    else if c == '{' || c == '[' then st.(mode := ValueNested, nesting := 1, inString := false, escaped := false)
    else if c == ',' || c == '}' || c == ']' || c == ':' then st.(mode := Done)
    else Begin(st, ValueScalar, c)
  }

  function Next(st: State, c: char): State {
    match st.mode
    case Start => if IsBlank(c) then st else st.(mode := if c == '{' then KeyPos else Done)
    case KeyPos => if c == '"' then Begin(st, KeyString, c) else if IsBlank(c) then st else st.(mode := Done)
    case KeyString =>
      var s := Capture(st, c);
      if EndsBody(s, c) then s.(isID := !s.overflow && s.buf == "\"id\"", mode := Colon) else InBody(s, c)
    case Colon => if IsBlank(c) then st else st.(mode := if c == ':' then ValuePos else Done)
    case ValuePos => ValueStep(st, c)
    case ValueString =>
      var s := Capture(st, c);
      if EndsBody(s, c) then Finish(s, true) else InBody(s, c)
    case ValueScalar => if IsBlank(c) || c == ',' || c == '}' then CommaStep(Finish(st, false), c) else Capture(st, c)
    case ValueNested => NestedStep(st, c)
    case Comma => CommaStep(st, c)
    case Done => st
  }

  /** The state after all bytes of `p`. */
  function Run(st: State, p: string): State
    decreases |p|
  {
    if p == "" then st else Run(Next(st, p[0]), p[1..])
  }

  /** The scanner with its fields, updated byte by byte. */
  class McpIdScanner {
    var mode: Mode
    var inString: bool
    var escaped: bool
    var nesting: int
    var isID: bool
    var buf: string
    var overflow: bool
    var id: Option<string>

    ghost function Fields(): State
      reads this
    {
      State(mode, inString, escaped, nesting, isID, buf, overflow, id)
    }

    constructor ()
      ensures Fields() == INITIAL
    {
      mode, inString, escaped, nesting := Start, false, false, 0;
      isID, buf, overflow, id := false, "", false, None;
    }

    method BeginValue(m: Mode, c: char)
      modifies this
      ensures Fields() == Begin(old(Fields()), m, c)
    {
      mode, buf, overflow, inString, escaped := m, [c], false, false, false;
    }

    method CaptureByte(c: char)
      modifies this
      ensures Fields() == Capture(old(Fields()), c)
    {
      var limit := MAX_ID;
      if mode == KeyString {
        limit := MAX_KEY;
      }
      if |buf| >= limit {
        overflow := true;
        return;
      }
      buf := buf + [c];
    }

    method StringEnds(c: char) returns (ends: bool)
      modifies this`escaped
      ensures ends == EndsBody(old(Fields()), c)
      ensures Fields() == if ends then old(Fields()) else InBody(old(Fields()), c)
    {
      if escaped {
        escaped := false;
      } else if c == '\\' {
        escaped := true;
      } else if c == '"' {
        return true;
      }
      return false;
    }

    method FinishValue(isString: bool)
      modifies this
      ensures Fields() == Finish(old(Fields()), isString)
    {
      mode := Comma;
      if !isID {
        return;
      }
      id := None;
      if overflow || |buf| == 0 {
        return;
      }
      if !isString && buf[0] != '-' && (buf[0] < '0' || buf[0] > '9') {
        return;
      }
      if Valid(buf) {
        id := Some(buf);
      }
    }

    method StepNested(c: char)
      modifies this
      ensures Fields() == NestedStep(old(Fields()), c)
    {
      if inString {
        var ends := StringEnds(c);
        if ends {
          inString := false;
        }
        return;
      }
      if c == '"' {
        inString := true;
      } else if c == '{' || c == '[' {
        nesting := nesting + 1;
      } else if c == '}' || c == ']' {
        nesting := nesting - 1;
        if nesting == 0 {
          if isID {
            id := None;
          }
          mode := Comma;
        }
      }
    }

    method Step(c: char)
      modifies this
      ensures Fields() == Next(old(Fields()), c)
      decreases mode == ValueScalar
    {
      match mode
      case Start =>
        if IsBlank(c) {
          return;
        }
        mode := if c == '{' then KeyPos else Done;
      case KeyPos =>
        if c == '"' {
          BeginValue(KeyString, c);
        } else if c == '}' || !IsBlank(c) {
          mode := Done;
        }
      case KeyString =>
        CaptureByte(c);
        var ends := StringEnds(c);
        if ends {
          isID := !overflow && buf == "\"id\"";
          mode := Colon;
        }
      case Colon =>
        if IsBlank(c) {
          return;
        }
        mode := if c == ':' then ValuePos else Done;
      case ValuePos =>
        if IsBlank(c) {
        } else if c == '"' {
          BeginValue(ValueString, c);
        } else if c == '{' || c == '[' {
          mode, nesting, inString, escaped := ValueNested, 1, false, false;
        } else if c == ',' || c == '}' || c == ']' || c == ':' {
          mode := Done;
        } else {
          BeginValue(ValueScalar, c);
        }
      case ValueString =>
        CaptureByte(c);
        var ends := StringEnds(c);
        if ends {
          FinishValue(true);
        }
      case ValueScalar =>
        if IsBlank(c) || c == ',' || c == '}' {
          FinishValue(false);
          Step(c);
          return;
        }
        CaptureByte(c);
      case ValueNested =>
        StepNested(c);
      case Comma =>
        if IsBlank(c) {
        } else if c == ',' {
          mode := KeyPos;
        } else {
          mode := Done;
        }
      case Done =>
    }

    method Feed(p: string)
      modifies this
      ensures Fields() == Run(old(Fields()), p)
    {
      for i := 0 to |p|
        invariant Run(Fields(), p[i..]) == Run(old(Fields()), p)
      {
        if mode == Done {
          DoneStays(Fields(), p[i..]);
          return;
        }
        assert p[i..][1..] == p[i + 1..];
        Step(p[i]);
      }
    }
  }

  lemma {:induction false} DoneStays(st: State, p: string)
    requires st.mode == Done
    ensures Run(st, p) == st
    decreases |p|
  {
    if p != "" { DoneStays(st, p[1..]); }
  }

  /** Fragmentation does not matter. */
  lemma {:induction false} RunConcat(st: State, p: string, q: string)
    ensures Run(st, p + q) == Run(Run(st, p), q)
    decreases |p|
  {
    if p == "" {
      assert p + q == q;
    } else {
      assert (p + q)[1..] == p[1..] + q;
      RunConcat(Next(st, p[0]), p[1..], q);
    }
  }

  // ---------------------------------------------------------------- for arbitrary bytes

  /** The memory bound, and what an id is, whatever the bytes were. */
  predicate Bounded(st: State) {
    && |st.buf| <= MAX_ID && (st.mode == KeyString ==> |st.buf| <= MAX_KEY)
    && (st.id.Some? ==> |st.id.value| <= MAX_ID && Valid(st.id.value))
    && (st.mode == ValueNested ==> st.nesting >= 1)
  }

  lemma StringByteIsBounded(st: State, c: char)
    requires Bounded(st) && (st.mode == KeyString || st.mode == ValueString)
    ensures Bounded(Next(st, c))
  {
    var s := Capture(st, c);
    assert Bounded(s);
  }

  lemma ScalarByteIsBounded(st: State, c: char)
    requires Bounded(st) && st.mode == ValueScalar
    ensures Bounded(Next(st, c))
  {
  }

  lemma NextIsBounded(st: State, c: char)
    requires Bounded(st)
    ensures Bounded(Next(st, c))
  {
    match st.mode
    case KeyString => StringByteIsBounded(st, c);
    case ValueString => StringByteIsBounded(st, c);
    case ValueScalar => ScalarByteIsBounded(st, c);
    case _ =>
  }

  lemma {:induction false} RunIsBounded(st: State, p: string)
    requires Bounded(st)
    ensures Bounded(Run(st, p))
    decreases |p|
  {
    if p != "" {
      NextIsBounded(st, p[0]);
      RunIsBounded(Next(st, p[0]), p[1..]);
    }
  }

  ghost predicate IsJsonScalar(s: string) {
    (exists body :: GoodString(body) && StringText(body) == s) ||
    (exists l :: GoodNumber(l) && Json.LiteralText(l) == s)
  }

  /** Over any input the buffer stays within 256 bytes, and an id is a JSON string or number. */
  lemma ScanIsBounded(p: string)
    ensures |Run(INITIAL, p).buf| <= MAX_ID
    ensures var id := Run(INITIAL, p).id; id.Some? ==> (|id.value| <= MAX_ID && IsJsonScalar(id.value))
  {
    RunIsBounded(INITIAL, p);
    var st := Run(INITIAL, p);
    if st.id.Some? {
      ValidStringIsGrammar(st.id.value);
      ValidNumberIsGrammar(st.id.value);
    }
  }

  // ---------------------------------------------------------------- for JSON objects

  /** The id a value gives: its raw text, if it is a string or number of at most 256 bytes. */
  function IdOfValue(t: Text): Option<string> {
    if (t.String? || t.Number?) && |Print(t)| <= MAX_ID then Some(Print(t)) else None
  }

  /** The id of an object: that of its last member whose key is written literally "id". */
  function IdOfMembers(ms: seq<Member>, before: Option<string>): Option<string> {
    if ms == [] then before
    else IdOfMembers(ms[1..], if StringText(ms[0].key) == "\"id\"" then IdOfValue(ms[0].value) else before)
  }

  /** White space between tokens changes nothing. */
  lemma {:induction false} BlankRuns(st: State, blank: string)
    requires Blank(blank)
    requires st.mode in {Start, KeyPos, Colon, ValuePos, Comma}
    ensures Run(st, blank) == st
    decreases |blank|
  {
    if blank != "" {
      assert blank[0] in blank;
      assert forall c | c in blank[1..] :: c in blank;
      BlankRuns(st, blank[1..]);
    }
  }

  /** The buffer holds the raw text `raw`, as far as the limit lets it. */
  predicate Holds(st: State, raw: string) {
    st.buf == (if |raw| <= Limit(st.mode) then raw else raw[..Limit(st.mode)]) &&
    st.overflow == (|raw| > Limit(st.mode))
  }

  /** The escape flag after `p`, if the string does not end within `p`. */
  function EscapedAfter(escaped: bool, p: string): Option<bool>
    decreases |p|
  {
    if p == "" then Some(escaped)
    else if !escaped && p[0] == '"' then None
    else EscapedAfter(!escaped && p[0] == '\\', p[1..])
  }

  lemma {:induction false} EscapedConcat(escaped: bool, p: string, q: string)
    requires EscapedAfter(escaped, p).Some?
    ensures EscapedAfter(escaped, p + q) == EscapedAfter(EscapedAfter(escaped, p).value, q)
    decreases |p|
  {
    if p == "" {
      assert p + q == q;
    } else {
      assert (p + q)[1..] == p[1..] + q;
      EscapedConcat(!escaped && p[0] == '\\', p[1..], q);
    }
  }

  lemma PieceIsOpen(p: Piece)
    requires GoodPiece(p)
    ensures EscapedAfter(false, PieceText(p)) == Some(false)
  {
    match p
    case Raw(c) => assert [c][1..] == "";
    case Escape(l) =>
      assert ['\\', l][1..] == [l] && [l][1..] == "";
      assert EscapedAfter(true, [l]) == Some(false);
    case Unicode(a, b, c, d) =>
      assert ['\\', 'u', a, b, c, d][1..] == ['u', a, b, c, d];
      assert ['u', a, b, c, d][1..] == [a, b, c, d];
      HexIsOpen([a, b, c, d]);
      assert EscapedAfter(true, ['u', a, b, c, d]) == Some(false);
  }

  lemma {:induction false} HexIsOpen(h: string)
    requires forall c | c in h :: IsHex(c)
    ensures EscapedAfter(false, h) == Some(false)
    decreases |h|
  {
    if h != "" {
      assert h[0] in h;
      assert forall c | c in h[1..] :: c in h;
      HexIsOpen(h[1..]);
    }
  }

  /** The body of a string does not end it. */
  lemma {:induction false} BodyIsOpen(body: seq<Piece>)
    requires GoodString(body)
    ensures EscapedAfter(false, BodyText(body)) == Some(false)
  {
    if body != [] {
      PieceIsOpen(body[0]);
      BodyIsOpen(body[1..]);
      EscapedConcat(false, PieceText(body[0]), BodyText(body[1..]));
    }
  }

  /** Inside a captured string the bytes are kept, up to the limit, and nothing else changes. */
  lemma {:induction false} StringRuns(st: State, raw: string, p: string)
    requires st.mode == KeyString || st.mode == ValueString
    requires Holds(st, raw) && EscapedAfter(st.escaped, p).Some?
    ensures var now := Run(st, p);
            now == st.(buf := now.buf, overflow := now.overflow, escaped := EscapedAfter(st.escaped, p).value) &&
            Holds(now, raw + p)
    decreases |p|
  {
    if p == "" {
      assert raw + p == raw;
    } else {
      var s := Next(st, p[0]);
      StringRuns(s, raw + [p[0]], p[1..]);
      assert raw + p == (raw + [p[0]]) + p[1..];
    }
  }

  /** Inside a nested string only the escape flag changes. */
  lemma {:induction false} NestedStringRuns(st: State, p: string)
    requires st.mode == ValueNested && st.inString && EscapedAfter(st.escaped, p).Some?
    ensures Run(st, p) == st.(escaped := EscapedAfter(st.escaped, p).value)
    decreases |p|
  {
    if p != "" {
      NestedStringRuns(Next(st, p[0]), p[1..]);
    }
  }

  /** A string from its opening to its closing quote: the state just before the closing quote is read. */
  lemma CapturedString(st: State, mode: Mode, body: seq<Piece>)
    requires mode == KeyString || mode == ValueString
    requires Next(st, '"') == Begin(st, mode, '"') && GoodString(body)
    ensures var now := Run(st, "\"" + BodyText(body));
            now == Begin(st, mode, '"').(buf := now.buf, overflow := now.overflow) && Holds(now, "\"" + BodyText(body))
    ensures Run(st, StringText(body)) == Next(Run(st, "\"" + BodyText(body)), '"')
  {
    BodyIsOpen(body);
    StringRuns(Begin(st, mode, '"'), "\"", BodyText(body));
    assert StringText(body) == ("\"" + BodyText(body)) + "\"";
    RunConcat(st, "\"" + BodyText(body), "\"");
    assert ['"'] + "" == "\"";
  }

  lemma KeyRuns(st: State, body: seq<Piece>)
    requires st.mode == KeyPos && GoodString(body)
    ensures var now := Run(st, StringText(body));
            now.mode == Colon && now.id == st.id && (now.isID <==> StringText(body) == "\"id\"")
  {
    CapturedString(st, KeyString, body);
    var now := Run(st, "\"" + BodyText(body));
    var raw := "\"" + BodyText(body);
    assert StringText(body) == raw + ['"'];
    assert |"\"id\""| == 4;
  }

  /** The id a value leaves behind when it belongs to the last key read. */
  function IdAfter(st: State, t: Text): Option<string> {
    if st.isID then IdOfValue(t) else st.id
  }

  lemma StringValueRuns(st: State, body: seq<Piece>)
    requires st.mode == ValuePos && GoodString(body)
    ensures var now := Run(st, StringText(body)); now.mode == Comma && now.id == IdAfter(st, String(body))
  {
    CapturedString(st, ValueString, body);
    var raw := "\"" + BodyText(body);
    assert StringText(body) == raw + ['"'];
    ValidStringIsGrammar(StringText(body));
    StringValueEnds(st, Run(st, raw), raw, body);
  }

  /** The closing quote of a captured string. */
  lemma StringValueEnds(st: State, now: State, raw: string, body: seq<Piece>)
    requires st.mode == ValuePos && now == Begin(st, ValueString, '"').(buf := now.buf, overflow := now.overflow)
    requires Holds(now, raw) && StringText(body) == raw + ['"'] && ValidString(StringText(body))
    ensures var next := Next(now, '"'); next.mode == Comma && next.id == IdAfter(st, String(body))
  {
  }

  predicate IsDelimiter(c: char) { IsBlank(c) || c == ',' || c == '}' }

  /** A byte that keeps a scalar going. */
  predicate Inner(c: char) { !IsDelimiter(c) }

  lemma ScalarByte(st: State, raw: string, c: char)
    requires st.mode == ValueScalar && Holds(st, raw) && Inner(c)
    ensures var s := Next(st, c); s == st.(buf := s.buf, overflow := s.overflow) && Holds(s, raw + [c])
  {
  }

  lemma {:induction false} ScalarRuns(st: State, raw: string, p: string)
    requires st.mode == ValueScalar && Holds(st, raw) && forall c | c in p :: Inner(c)
    ensures var now := Run(st, p); now == st.(buf := now.buf, overflow := now.overflow) && Holds(now, raw + p)
    decreases |p|
  {
    if p == "" {
      assert raw + p == raw;
    } else {
      assert p[0] in p;
      ScalarByte(st, raw, p[0]);
      var s := Next(st, p[0]);
      assert forall c | c in p[1..] :: c in p;
      ScalarRuns(s, raw + [p[0]], p[1..]);
      assert raw + p == (raw + [p[0]]) + p[1..];
    }
  }

  /** The texts of numbers and words: no delimiter, no quote, no bracket or colon in front. */
  predicate ScalarText(s: string) {
    s != "" && s[0] !in "\"{[]:" && forall c | c in s :: Inner(c)
  }

  lemma CapturedScalar(st: State, s: string)
    requires st.mode == ValuePos && ScalarText(s)
    ensures var now := Run(st, s);
            now == Begin(st, ValueScalar, s[0]).(buf := now.buf, overflow := now.overflow) && Holds(now, s)
  {
    assert s[0] in s;
    assert s == [s[0]] + s[1..];
    assert forall c | c in s[1..] :: c in s;
    ScalarRuns(Begin(st, ValueScalar, s[0]), [s[0]], s[1..]);
  }

  lemma NumberCharIsInner(c: char)
    requires Json.IsNumberChar(c)
    ensures Inner(c) && c !in "\"{}[]:"
  {
  }

  lemma NumberTextIsScalar(l: Json.Literal)
    requires GoodNumber(l)
    ensures ScalarText(Json.LiteralText(l))
    ensures var c := Json.LiteralText(l)[0]; c == '-' || IsDigitChar(c)
  {
    var s := Json.LiteralText(l);
    Json.LiteralTextChars(l);
    PrintedNumberIsValid(l);
    forall c | c in s ensures Inner(c) {
      NumberCharIsInner(c);
    }
    NumberCharIsInner(s[0]);
  }

  lemma WordTextIsScalar(w: Word)
    ensures ScalarText(WordText(w)) && WordText(w)[0] in "tfn"
  {
  }

  /** Inside a nested value, between tokens. */
  predicate Nested(st: State) {
    st.mode == ValueNested && !st.inString && !st.escaped && st.nesting >= 1
  }

  /** Text that leaves a scanner inside a nested value as it was. */
  ghost predicate Neutral(p: string) {
    forall st :: Nested(st) ==> Run(st, p) == st
  }

  lemma NeutralConcat(p: string, q: string)
    requires Neutral(p) && Neutral(q)
    ensures Neutral(p + q)
  {
    forall st | Nested(st) ensures Run(st, p + q) == st {
      RunConcat(st, p, q);
    }
  }

  lemma {:induction false} SkippedIsNeutral(p: string)
    requires forall c | c in p :: c !in "\"{}[]"
    ensures Neutral(p)
    decreases |p|
  {
    forall st | Nested(st) ensures Run(st, p) == st {
      if p != "" {
        assert p[0] in p;
        assert forall c | c in p[1..] :: c in p;
        SkippedIsNeutral(p[1..]);
      }
    }
  }

  lemma BlankIsNeutral(p: string)
    requires Blank(p)
    ensures Neutral(p)
  {
    SkippedIsNeutral(p);
  }

  lemma StringIsNeutral(body: seq<Piece>)
    requires GoodString(body)
    ensures Neutral(StringText(body))
  {
    forall st | Nested(st) ensures Run(st, StringText(body)) == st {
      var open := st.(inString := true);
      RunConcat(open, BodyText(body), "\"");
      BodyIsOpen(body);
      NestedStringRuns(open, BodyText(body));
      assert ['"'] + "" == "\"";
    }
  }

  lemma BracketedIsNeutral(open: char, p: string, close: char)
    requires open in "{[" && close in "}]" && Neutral(p)
    ensures Neutral([open] + (p + [close]))
  {
    forall st | Nested(st) ensures Run(st, [open] + (p + [close])) == st {
      var inside := st.(nesting := st.nesting + 1);
      RunConcat(inside, p, [close]);
      assert Run(inside, p) == inside;
      assert [close] + "" == [close];
    }
  }

  lemma NumberIsNeutral(l: Json.Literal)
    requires GoodNumber(l)
    ensures Neutral(Json.LiteralText(l))
  {
    Json.LiteralTextChars(l);
    forall c | c in Json.LiteralText(l) ensures c !in "\"{}[]" {
      NumberCharIsInner(c);
    }
    SkippedIsNeutral(Json.LiteralText(l));
  }

  lemma {:induction false} ElementsAreNeutral(es: seq<Element>)
    requires es != [] && forall e | e in es :: Blank(e.before) && Good(e.value) && Blank(e.after)
    ensures Neutral(ElementsText(es))
    decreases es
  {
    var e := es[0];
    assert e in es;
    BlankIsNeutral(e.before);
    TextIsNeutral(e.value);
    BlankIsNeutral(e.after);
    NeutralConcat(Print(e.value), e.after);
    NeutralConcat(e.before, Print(e.value) + e.after);
    if |es| > 1 {
      ElementsAreNeutral(es[1..]);
      SkippedIsNeutral(",");
      NeutralConcat(",", ElementsText(es[1..]));
      NeutralConcat(e.before + (Print(e.value) + e.after), "," + ElementsText(es[1..]));
    }
  }

  lemma {:induction false} MemberIsNeutral(m: Member)
    requires GoodMember(m)
    ensures Neutral(MemberText(m))
    decreases m
  {
    BlankIsNeutral(m.before);
    StringIsNeutral(m.key);
    BlankIsNeutral(m.colon);
    SkippedIsNeutral(":");
    BlankIsNeutral(m.gap);
    TextIsNeutral(m.value);
    BlankIsNeutral(m.after);
    var t6 := Print(m.value) + m.after;
    NeutralConcat(Print(m.value), m.after);
    NeutralConcat(m.gap, t6);
    NeutralConcat(":", m.gap + t6);
    NeutralConcat(m.colon, ":" + (m.gap + t6));
    NeutralConcat(StringText(m.key), m.colon + (":" + (m.gap + t6)));
    NeutralConcat(m.before, StringText(m.key) + (m.colon + (":" + (m.gap + t6))));
  }

  lemma {:induction false} MembersAreNeutral(ms: seq<Member>)
    requires ms != [] && forall m | m in ms :: GoodMember(m)
    ensures Neutral(MembersText(ms))
    decreases ms
  {
    assert ms[0] in ms;
    MemberIsNeutral(ms[0]);
    if |ms| > 1 {
      MembersAreNeutral(ms[1..]);
      SkippedIsNeutral(",");
      NeutralConcat(",", MembersText(ms[1..]));
      NeutralConcat(MemberText(ms[0]), "," + MembersText(ms[1..]));
    }
  }

  /** What stands between the brackets of an array or object. */
  function Inside(t: Text): string
    requires t.Array? || t.Object?
  {
    if t.Array? then (if t.elements == [] then t.blank else ElementsText(t.elements))
    else (if t.members == [] then t.blank else MembersText(t.members))
  }

  lemma {:induction false} InsideIsNeutral(t: Text)
    requires Good(t) && (t.Array? || t.Object?)
    ensures Neutral(Inside(t))
    decreases t, 0
  {
    BlankIsNeutral(t.blank);
    if t.Array? && t.elements != [] { ElementsAreNeutral(t.elements); }
    if t.Object? && t.members != [] { MembersAreNeutral(t.members); }
  }

  /** A whole value nested in another one is skipped. */
  lemma {:induction false} TextIsNeutral(t: Text)
    requires Good(t)
    ensures Neutral(Print(t))
    decreases t, 1
  {
    match t
    case Plain(w) => SkippedIsNeutral(WordText(w));
    case Number(l) => NumberIsNeutral(l);
    case String(body) => StringIsNeutral(body);
    case Array(_, _) =>
      InsideIsNeutral(t);
      BracketedIsNeutral('[', Inside(t), ']');
    case Object(_, _) =>
      InsideIsNeutral(t);
      BracketedIsNeutral('{', Inside(t), '}');
  }

  // A top-level value and the delimiter after it.

  function AfterDelimiter(d: char): Mode { if IsBlank(d) then Comma else if d == ',' then KeyPos else Done }

  ghost predicate Settles(st: State, t: Text, d: char) {
    var now := Run(st, Print(t) + [d]);
    now.mode == AfterDelimiter(d) && now.id == IdAfter(st, t)
  }

  lemma OneByte(st: State, p: string, d: char)
    ensures Run(st, p + [d]) == Next(Run(st, p), d)
  {
    RunConcat(st, p, [d]);
    assert [d] + "" == [d];
  }

  lemma NestedSettles(st: State, t: Text, d: char)
    requires st.mode == ValuePos && Good(t) && (t.Array? || t.Object?) && IsDelimiter(d)
    ensures Settles(st, t, d)
  {
    var open, close := if t.Array? then '[' else '{', if t.Array? then ']' else '}';
    var inside := Next(st, open);
    assert Print(t) == [open] + (Inside(t) + [close]);
    InsideIsNeutral(t);
    assert Run(inside, Inside(t)) == inside;
    OneByte(inside, Inside(t), close);
    OneByte(st, Print(t), d);
  }

  lemma NumberSettles(st: State, l: Json.Literal, d: char)
    requires st.mode == ValuePos && GoodNumber(l) && IsDelimiter(d)
    ensures Settles(st, Number(l), d)
  {
    NumberTextIsScalar(l);
    CapturedScalar(st, Json.LiteralText(l));
    OneByte(st, Json.LiteralText(l), d);
    PrintedNumberIsValid(l);
  }

  lemma WordSettles(st: State, w: Word, d: char)
    requires st.mode == ValuePos && IsDelimiter(d)
    ensures Settles(st, Plain(w), d)
  {
    WordTextIsScalar(w);
    CapturedScalar(st, WordText(w));
    OneByte(st, WordText(w), d);
  }

  lemma ValueSettles(st: State, t: Text, d: char)
    requires st.mode == ValuePos && Good(t) && IsDelimiter(d)
    ensures Settles(st, t, d)
  {
    match t
    case Plain(w) => WordSettles(st, w, d);
    case Number(l) => NumberSettles(st, l, d);
    case String(body) =>
      StringValueRuns(st, body);
      OneByte(st, Print(t), d);
    case _ => NestedSettles(st, t, d);
  }

  lemma SplitFirst(p: string, s: string)
    requires s != ""
    ensures p + s == (p + [s[0]]) + s[1..]
  {
  }

  /** A value, white space, and the comma or brace after it. */
  lemma ValueThenBlankSettles(st: State, t: Text, after: string, d: char)
    requires st.mode == ValuePos && Good(t) && Blank(after) && (d == ',' || d == '}')
    ensures var now := Run(st, (Print(t) + after) + [d]); now.mode == AfterDelimiter(d) && now.id == IdAfter(st, t)
  {
    if after == "" {
      assert Print(t) + after == Print(t);
      ValueSettles(st, t, d);
    } else {
      assert after[0] in after;
      assert forall c | c in after[1..] :: c in after;
      ValueSettles(st, t, after[0]);
      var first := Run(st, Print(t) + [after[0]]);
      SplitFirst(Print(t), after);
      RunConcat(st, Print(t) + [after[0]], after[1..]);
      BlankRuns(first, after[1..]);
      OneByte(st, Print(t) + after, d);
    }
  }

  /** A whole member and the comma or brace after it. */
  lemma MemberRuns(st: State, m: Member, d: char)
    requires st.mode == KeyPos && GoodMember(m) && (d == ',' || d == '}')
    ensures var now := Run(st, MemberText(m) + [d]);
            now.mode == AfterDelimiter(d) &&
            now.id == if StringText(m.key) == "\"id\"" then IdOfValue(m.value) else st.id
  {
    var value := (Print(m.value) + m.after) + [d];
    MemberTextSplits(m, d);
    BlankRuns(st, m.before);
    RunConcat(st, m.before, StringText(m.key) + (m.colon + (":" + (m.gap + value))));
    KeyRuns(st, m.key);
    var keyed := Run(st, StringText(m.key));
    RunConcat(st, StringText(m.key), m.colon + (":" + (m.gap + value)));
    BlankRuns(keyed, m.colon);
    RunConcat(keyed, m.colon, ":" + (m.gap + value));
    var valued := Next(keyed, ':');
    BlankRuns(valued, m.gap);
    RunConcat(valued, m.gap, value);
    ValueThenBlankSettles(valued, m.value, m.after, d);
  }

  lemma MemberTextSplits(m: Member, d: char)
    ensures MemberText(m) + [d] ==
            m.before + (StringText(m.key) + (m.colon + (":" + (m.gap + ((Print(m.value) + m.after) + [d])))))
  {
    var v := Print(m.value) + m.after;
    assert (m.gap + v) + [d] == m.gap + (v + [d]);
    assert (":" + (m.gap + v)) + [d] == ":" + ((m.gap + v) + [d]);
    assert (m.colon + (":" + (m.gap + v))) + [d] == m.colon + ((":" + (m.gap + v)) + [d]);
    var k := StringText(m.key);
    assert (k + (m.colon + (":" + (m.gap + v)))) + [d] == k + ((m.colon + (":" + (m.gap + v))) + [d]);
  }

  lemma {:induction false} MembersRun(st: State, ms: seq<Member>)
    requires st.mode == KeyPos && ms != [] && forall m | m in ms :: GoodMember(m)
    ensures var now := Run(st, MembersText(ms) + "}"); now.mode == Done && now.id == IdOfMembers(ms, st.id)
    decreases |ms|
  {
    assert ms[0] in ms;
    if |ms| == 1 {
      MemberRuns(st, ms[0], '}');
      assert MembersText(ms) + "}" == MemberText(ms[0]) + ['}'];
      assert IdOfMembers(ms[1..], None) == None;
    } else {
      MemberRuns(st, ms[0], ',');
      var rest := MembersText(ms[1..]) + "}";
      assert MembersText(ms) + "}" == (MemberText(ms[0]) + [',']) + rest;
      RunConcat(st, MemberText(ms[0]) + [','], rest);
      assert forall m | m in ms[1..] :: m in ms;
      MembersRun(Run(st, MemberText(ms[0]) + [',']), ms[1..]);
    }
  }

  /** For every object text, and whatever follows it, the scanner ends with the id of the object. */
  lemma ScanFindsId(lead: string, blank: string, ms: seq<Member>, trail: string)
    requires Blank(lead) && Good(Object(blank, ms))
    ensures Run(INITIAL, lead + (Print(Object(blank, ms)) + trail)).id == IdOfMembers(ms, None)
  {
    var t := Object(blank, ms);
    BlankRuns(INITIAL, lead);
    RunConcat(INITIAL, lead, Print(t) + trail);
    RunConcat(INITIAL, Print(t), trail);
    var open := Next(INITIAL, '{');
    if ms == [] {
      BlankRuns(open, blank);
      OneByte(open, blank, '}');
      assert blank + ['}'] == blank + "}";
    } else {
      MembersRun(open, ms);
    }
    DoneStays(Run(INITIAL, Print(t)), trail);
  }

  function Joined(fragments: seq<string>): string {
    if fragments == [] then "" else fragments[0] + Joined(fragments[1..])
  }

  /** The scanner fed an object text in any fragments yields the id a JSON parser would find. */
  method ScanFragments(fragments: seq<string>, ghost lead: string, ghost blank: string, ghost ms: seq<Member>,
                       ghost trail: string) returns (id: Option<string>)
    requires Blank(lead) && Good(Object(blank, ms))
    requires Joined(fragments) == lead + (Print(Object(blank, ms)) + trail)
    ensures id == IdOfMembers(ms, None)
  {
    var scan := new McpIdScanner();
    for i := 0 to |fragments|
      invariant Run(scan.Fields(), Joined(fragments[i..])) == Run(INITIAL, Joined(fragments))
    {
      RunConcat(scan.Fields(), fragments[i], Joined(fragments[i + 1..]));
      assert fragments[i..][1..] == fragments[i + 1..];
      scan.Feed(fragments[i]);
    }
    ScanFindsId(lead, blank, ms, trail);
    id := scan.id;
  }
}
