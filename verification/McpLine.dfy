/** Reading one message line of bounded length from a buffered reader (readMCPLine in internal/cli/mcp.go). */
module McpLine {
  import opened IdScanner
  import opened JsonText
  import opened Wrappers

  const MAX_REQUEST: nat := 8 * 1024 * 1024

  /** One answer of the buffered reader: a piece of the line with whether the line goes on, or the end of the input, or
      another error. */
  datatype Read = Fragment(text: string, more: bool) | Eof | Failed

  datatype Result = Line(text: string) | TooLarge(id: Option<string>) | AtEof | ReadError

  /** What a whole line answers as: itself, or for an oversized one the id found in it. */
  function Whole(text: string): Result {
    if |text| <= MAX_REQUEST then Line(text) else TooLarge(Run(INITIAL, text).id)
  }

  /** The bytes of the line the reader's answers make up. */
  function LineText(answers: seq<Read>): string {
    if answers == [] || !answers[0].Fragment? then ""
    else if answers[0].more then answers[0].text + LineText(answers[1..]) else answers[0].text
  }

  /** The answers that belong to the line: fragments, up to one that ends it or to an error. */
  predicate Complete(answers: seq<Read>) {
    answers != [] && (answers[0].Fragment? && answers[0].more ==> Complete(answers[1..]))
  }

  /** How the answers end: None for the end of the line. */
  function End(answers: seq<Read>): Option<Read>
    requires Complete(answers)
  {
    if !answers[0].Fragment? then Some(answers[0]) else if answers[0].more then End(answers[1..]) else None
  }

  /** What reading the answers gives: a function of the joined bytes and of how they end, not of the pieces. */
  function Outcome(text: string, end: Option<Read>): Result {
    if end == Some(Failed) then ReadError
    else if end.Some? && text == "" then AtEof
    else Whole(text)
  }

  /** What is kept of the bytes seen so far: all of them while they fit, and only a scanner afterwards. */
  ghost predicate Keeps(line: string, scan: McpIdScanner?, seen: string)
    reads scan
  {
    if scan == null then line == seen && |seen| <= MAX_REQUEST
    else line == "" && |seen| > MAX_REQUEST && scan.Fields() == Run(INITIAL, seen)
  }

  /** One fragment; the scanner starts with the kept prefix once the line is too long. */
  method Accumulate(line: string, scan: McpIdScanner?, fragment: string, ghost seen: string)
    returns (line': string, scan': McpIdScanner?)
    requires Keeps(line, scan, seen)
    modifies scan
    ensures Keeps(line', scan', seen + fragment) && (scan' == scan || fresh(scan'))
    ensures scan' == null ==> scan == null
  {
    line', scan' := line, scan;
    if scan' == null && |line'| + |fragment| > MAX_REQUEST {
      scan' := new McpIdScanner();
      scan'.Feed(line');
      line' := "";
    }
    if scan' != null {
      RunConcat(INITIAL, seen, fragment);
      scan'.Feed(fragment);
    } else {
      line' := line' + fragment;
    }
  }

  /** `readMCPLine`. */
  method ReadMcpLine(answers: seq<Read>) returns (r: Result)
    requires Complete(answers)
    ensures r == Outcome(LineText(answers), End(answers))
  {
    var line := "";
    var scan: McpIdScanner? := null;
    ghost var seen := "";
    var rest := answers;
    while true
      invariant Complete(rest) && seen + LineText(rest) == LineText(answers) && End(rest) == End(answers)
      invariant Keeps(line, scan, seen) && (scan == null || fresh(scan))
      decreases |rest|
    {
      if !rest[0].Fragment? {
        assert seen == LineText(answers);
        if rest[0] == Eof && (|line| > 0 || scan != null) {
          if scan != null {
            return TooLarge(scan.id);
          }
          return Line(line);
        }
        return if rest[0] == Eof then AtEof else ReadError;
      }
      line, scan := Accumulate(line, scan, rest[0].text, seen);
      seen := seen + rest[0].text;
      if !rest[0].more {
        if scan != null {
          return TooLarge(scan.id);
        }
        return Line(line);
      }
      rest := rest[1..];
    }
  }

  /** An oversized line that is a JSON object is refused under the id of its last top-level member whose key is
      written literally "id", however large its parameters are and wherever the id stands. */
  lemma OversizedRequestKeepsItsId(lead: string, blank: string, ms: seq<Member>, trail: string)
    requires Blank(lead) && Good(Object(blank, ms))
    requires |lead + (Print(Object(blank, ms)) + trail)| > MAX_REQUEST
    ensures Whole(lead + (Print(Object(blank, ms)) + trail)) == TooLarge(IdOfMembers(ms, None))
  {
    ScanFindsId(lead, blank, ms, trail);
  }
}
