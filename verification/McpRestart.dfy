/** The restart of an MCP server after an update replaced its program: the message just read, the bytes still
    buffered and the negotiated session pass to the successor (internal/cli/mcp_restart.go, and the reading loop
    in internal/cli/mcp.go). */
module McpRestart {
  import opened Wrappers
  import Utf8

  const MAX_REQUEST: nat := 8 * 1024 * 1024
  const MAX_HANDOFF: nat := 96 * 1024
  const MAX_FIELD: nat := 1024
  const MAX_ROOTS: nat := 64
  const MAX_ROOT: nat := 4096
  const MAX_SEQUENCE: nat := 0x4000_0000
  const LEGACY_VERSIONS: seq<string> := ["2025-11-25", "2025-06-18"]

  // ---------------------------------------------------------------- the input stream

  /** The length of the first line of a non-empty input, without its line feed. */
  function LineLength(input: string): (n: nat)
    ensures n <= |input|
  {
    if input == "" || input[0] == '\n' then 0 else 1 + LineLength(input[1..])
  }

  /** What the line reader returns for a line: one carriage return before the line feed is part of the line
      end. */
  function Chop(line: string, ended: bool): string {
    if ended && line != "" && line[|line| - 1] == '\r' then line[..|line| - 1] else line
  }

  function FirstMessage(input: string): string {
    Chop(input[..LineLength(input)], LineLength(input) < |input|)
  }

  /** What follows the first line. */
  function AfterFirst(input: string): (rest: string)
    ensures |input| > 0 ==> |rest| < |input|
  {
    var n := LineLength(input);
    if n < |input| then input[n + 1..] else ""
  }

  /** The messages of an input, in order. */
  function Messages(input: string): seq<string>
    decreases |input|
  {
    if input == "" then [] else [FirstMessage(input)] + Messages(AfterFirst(input))
  }

  // ---------------------------------------------------------------- the session

  datatype Client = Client(name: string, version: string)

  /** The roots as they are handed over; `ask` has the successor ask for them again. */
  datatype Roots = Roots(offered: bool, listChanged: bool, sequence: int, ask: bool, dirs: seq<string>)

  /** What the client negotiated, and the log session of the process. */
  datatype Session = Session(protocol: string, client: Option<Client>, log: string)

  datatype Handoff = Handoff(from: string, session: Session, roots: Roots, input: string)

  /** What is fixed outside the restart: how long a handoff is once encoded, which log session ids are valid,
      which characters are control characters, which directories have the form root URIs are given, the log
      session a new process creates for itself, and what handling a message does to the session. */
  datatype Env = Env(encoded: Handoff -> nat, validLog: string -> bool, control: char -> bool,
                     cleanDir: string -> bool, ownLog: string, handle: (Session, string) -> Session)

  function WithoutDirs(h: Handoff): Handoff { h.(roots := h.roots.(ask := true, dirs := [])) }

  /** The handoff a server passes on, if it fits at all: without its directories where they make it too long. */
  function Encode(env: Env, h: Handoff): Option<Handoff> {
    if env.encoded(h) <= MAX_HANDOFF then Some(h)
    else if env.encoded(WithoutDirs(h)) <= MAX_HANDOFF then Some(WithoutDirs(h))
    else None
  }

  predicate ClientFits(client: Option<Client>) {
    client.Some? ==> (client.value.name != "" && client.value.version != "" && ClientIsShort(client))
  }

  predicate ClientIsShort(client: Option<Client>) {
    client.Some? ==> (|client.value.name| <= MAX_FIELD && |client.value.version| <= MAX_FIELD)
  }

  predicate VersionFits(env: Env, from: string) { |from| <= MAX_FIELD && forall c | c in from :: !env.control(c) }

  /** The directories are checked as they are read from the JSON text. */
  predicate RootsFit(env: Env, roots: Roots) {
    0 <= roots.sequence <= MAX_SEQUENCE && |roots.dirs| <= MAX_ROOTS &&
    forall d | d in roots.dirs :: |Utf8.Carried(d)| <= MAX_ROOT && env.cleanDir(Utf8.Carried(d))
  }

  /** The checks of `decodeMCPHandoff`. */
  predicate Decodes(env: Env, h: Handoff) {
    && env.encoded(h) <= MAX_HANDOFF && VersionFits(env, h.from) && |h.input| <= MAX_HANDOFF
    && (h.session.protocol == "" || h.session.protocol in LEGACY_VERSIONS)
    && ClientFits(h.session.client)
    && (h.session.log == "" || env.validLog(h.session.log))
    && RootsFit(env, h.roots)
  }

  /** The session of a process that starts without a handoff. */
  function NewSession(env: Env): Session { Session("", None, env.ownLog) }

  /** `adopt`. */
  function Adopted(env: Env, session: Session): Session {
    if session.log == "" then session.(log := env.ownLog) else session
  }

  // ---------------------------------------------------------------- the reading loop

  /** The server: the input it has not handled, and the messages it has. A restart replaces the process but
      not the client's stream. */
  datatype Server = Server(input: string, session: Session, tried: bool, skip: bool, handled: seq<string>)

  /** What the server finds when it checks for a new program before a message. `buffered` is how much of the
      rest of the stream its reader already holds, `from` its own version, `roots` its roots at that time. */
  datatype Check =
    | Unchanged
    | Replaced(executable: bool, writeFailed: bool, execFails: bool, buffered: nat, from: string, roots: Roots)

  /** A line of more than 8 MiB is refused, and nothing else happens. */
  predicate Oversized(line: string) { |line| > MAX_REQUEST }

  function Effect(env: Env, session: Session, line: string): Session {
    if Oversized(line) then session else env.handle(session, line)
  }

  function Handle(env: Env, s: Server): Server
    requires s.input != ""
  {
    var line := FirstMessage(s.input);
    s.(input := AfterFirst(s.input), session := Effect(env, s.session, line), handled := s.handled + [line],
       skip := s.skip && Oversized(line))
  }

  /** The bytes handed over: the message as a line, and what is buffered after it. */
  function HandedInput(s: Server, buffered: nat): string
    requires s.input != "" && buffered <= |AfterFirst(s.input)|
  {
    FirstMessage(s.input) + ("\n" + AfterFirst(s.input)[..buffered])
  }

  function Offered(s: Server, check: Check): Handoff
    requires s.input != "" && check.Replaced? && check.buffered <= |AfterFirst(s.input)|
  {
    Handoff(check.from, s.session, check.roots, HandedInput(s, check.buffered))
  }

  /** The process that takes over; a handoff it cannot decode is as none. */
  function Successor(env: Env, s: Server, h: Handoff, unread: string): Server {
    if Decodes(env, h)
    then Server(h.input + unread, Adopted(env, h.session), false, true, s.handled)
    else Server(unread, NewSession(env), false, false, s.handled)
  }

  /** What a check must find for the new program to be executed. */
  predicate CanRestart(env: Env, s: Server, check: Check)
    requires s.input != ""
  {
    check.Replaced? && check.buffered <= |AfterFirst(s.input)| && check.executable &&
    |HandedInput(s, check.buffered)| <= MAX_HANDOFF / 2 && !check.writeFailed &&
    Encode(env, Offered(s, check)).Some? && !check.execFails
  }

  /** Whether the check makes the server execute the new program. */
  predicate Restarts(env: Env, s: Server, check: Check)
    requires s.input != ""
  {
    CanRestart(env, s, check) && !s.tried && !s.skip
  }

  /** Whether the check leaves the server with a restart it does not try again. */
  predicate Tries(s: Server, check: Check)
    requires s.input != ""
  {
    check.Replaced? && check.buffered <= |AfterFirst(s.input)| && !s.skip && !Oversized(FirstMessage(s.input)) &&
    (!check.executable || (|HandedInput(s, check.buffered)| <= MAX_HANDOFF / 2 && !check.writeFailed))
  }

  /** One round of the reading loop: `restartIfReplaced`, then the message, unless the process was replaced. */
  function Tick(env: Env, s: Server, check: Check): Server
    requires s.input != ""
  {
    if Restarts(env, s, check) then
      Successor(env, s, Encode(env, Offered(s, check)).value, AfterFirst(s.input)[check.buffered..])
    else
      Handle(env, s).(tried := s.tried || Tries(s, check))
  }

  // ---------------------------------------------------------------- lines

  lemma {:induction false} LineHasNoFeed(input: string, i: nat)
    requires i < LineLength(input)
    ensures input[i] != '\n'
  {
    if i > 0 { LineHasNoFeed(input[1..], i - 1); }
  }

  lemma {:induction false} LineEnds(line: string, rest: string)
    requires forall i | 0 <= i < |line| :: line[i] != '\n'
    ensures LineLength(line + ("\n" + rest)) == |line|
  {
    var input := line + ("\n" + rest);
    if line != "" {
      assert input[1..] == line[1..] + ("\n" + rest);
      assert forall i | 0 <= i < |line[1..]| :: line[1..][i] == line[i + 1];
      LineEnds(line[1..], rest);
    }
  }

  predicate EndsInReturn(s: string) { s != "" && s[|s| - 1] == '\r' }

  /** Reading a message that was put back in front of the rest. */
  lemma PutBack(line: string, rest: string)
    requires forall i | 0 <= i < |line| :: line[i] != '\n'
    ensures FirstMessage(line + ("\n" + rest)) == Chop(line, true) && AfterFirst(line + ("\n" + rest)) == rest
  {
    var input := line + ("\n" + rest);
    LineEnds(line, rest);
    assert input[..|line|] == line && input[|line| + 1..] == rest;
  }

  lemma MessageHasNoFeed(input: string)
    ensures var m := FirstMessage(input); forall i | 0 <= i < |m| :: m[i] != '\n'
  {
    var m := FirstMessage(input);
    forall i | 0 <= i < |m| ensures m[i] != '\n' { LineHasNoFeed(input, i); }
  }

  lemma NextMessage(line: string, rest: string)
    requires forall i | 0 <= i < |line| :: line[i] != '\n'
    ensures Messages(line + ("\n" + rest)) == [Chop(line, true)] + Messages(rest)
  {
    PutBack(line, rest);
  }

  lemma Rejoined(line: string, rest: string, k: nat)
    requires k <= |rest|
    ensures (line + ("\n" + rest[..k])) + rest[k..] == line + ("\n" + rest)
  {
    assert rest[..k] + rest[k..] == rest;
  }

  lemma MessagesStep(input: string)
    requires input != ""
    ensures Messages(input) == [FirstMessage(input)] + Messages(AfterFirst(input))
    ensures |Messages(input)| == 1 + |Messages(AfterFirst(input))|
  {
  }

  /** The input of a successor that took the handoff over, wherever the buffer ended. */
  lemma TakenOverMessages(input: string, buffered: nat)
    requires input != "" && buffered <= |AfterFirst(input)|
    ensures var line, rest := FirstMessage(input), AfterFirst(input);
            Messages((line + ("\n" + rest[..buffered])) + rest[buffered..]) == [Chop(line, true)] + Messages(rest)
  {
    MessageHasNoFeed(input);
    Rejoined(FirstMessage(input), AfterFirst(input), buffered);
    NextMessage(FirstMessage(input), AfterFirst(input));
  }

  lemma SameLineEnd(input: string)
    requires input != "" && input[0] != '\n'
    ensures LineLength(input) == 1 + LineLength(input[1..]) && AfterFirst(input) == AfterFirst(input[1..])
  {
    var n := LineLength(input);
    if n < |input| { assert input[n + 1..] == input[1..][n..]; }
  }

  /** Without its first character an input has no more messages. */
  lemma TailHasFewer(input: string)
    requires input != ""
    ensures |Messages(input[1..])| <= |Messages(input)|
  {
    MessagesStep(input);
    if input[0] == '\n' {
      assert AfterFirst(input) == input[1..];
    } else if |input| > 1 {
      SameLineEnd(input);
      MessagesStep(input[1..]);
    }
  }

  /** A suffix of an input has no more messages. */
  lemma {:induction false} SuffixHasFewer(input: string, from: nat)
    requires from <= |input|
    ensures |Messages(input[from..])| <= |Messages(input)|
  {
    if from == 0 {
      assert input[0..] == input;
    } else {
      assert input[from..] == input[1..][from - 1..];
      SuffixHasFewer(input[1..], from - 1);
      TailHasFewer(input);
    }
  }

  // ---------------------------------------------------------------- one restart

  /** A restart loses no message and changes none exactly when the successor can decode the handoff and the
      message does not end in a carriage return of its own. */
  lemma RestartKeepsMessagesExactly(env: Env, s: Server, check: Check)
    requires s.input != "" && Restarts(env, s, check)
    ensures var h := Encode(env, Offered(s, check)).value;
            Messages(Tick(env, s, check).input) == Messages(s.input) <==>
            Decodes(env, h) && !EndsInReturn(FirstMessage(s.input))
  {
    var h := Encode(env, Offered(s, check)).value;
    var line, rest := FirstMessage(s.input), AfterFirst(s.input);
    TakenOverMessages(s.input, check.buffered);
    SuffixHasFewer(rest, check.buffered);
    assert Messages(s.input) == [line] + Messages(rest);
    if Decodes(env, h) {
      assert Messages(Tick(env, s, check).input) == [Chop(line, true)] + Messages(rest);
      assert [Chop(line, true)] + Messages(rest) == [line] + Messages(rest) <==> Chop(line, true) == line by {
        if [Chop(line, true)] + Messages(rest) == [line] + Messages(rest) {
          assert ([Chop(line, true)] + Messages(rest))[0] == ([line] + Messages(rest))[0];
        }
      }
    } else {
      assert |Messages(Tick(env, s, check).input)| < |Messages(s.input)|;
    }
  }

  /** What the client negotiated survives a restart exactly when the handoff is decoded or nothing was negotiated;
      the whole session, when the log session survives too. */
  lemma RestartKeepsSession(env: Env, s: Server, check: Check)
    requires s.input != "" && Restarts(env, s, check)
    ensures var h, t := Encode(env, Offered(s, check)).value, Tick(env, s, check).session;
            && (t.protocol == s.session.protocol && t.client == s.session.client <==>
                  Decodes(env, h) || (s.session.protocol == "" && s.session.client == None))
            && (t == s.session <==>
                  if Decodes(env, h) then s.session.log != "" || env.ownLog == "" else s.session == NewSession(env))
  {
    assert Encode(env, Offered(s, check)).value.session == s.session;
  }

  /** The server accepts any client name in initialize, but the successor refuses one of more than 1024 bytes:
      such a restart loses the session, the message and everything buffered. */
  lemma LongClientNameLosesTheSession(env: Env, s: Server, check: Check)
    requires s.input != "" && Restarts(env, s, check)
    requires s.session.client.Some? && |s.session.client.value.name| > MAX_FIELD
    ensures Tick(env, s, check) ==
            Server(AfterFirst(s.input)[check.buffered..], NewSession(env), false, false, s.handled)
    ensures Messages(Tick(env, s, check).input) != Messages(s.input)
  {
    RestartKeepsMessagesExactly(env, s, check);
  }

  /** A restarted server restarts again before it handled a message exactly when it refused the handoff and finds
      what a restart needs. */
  lemma RestartsAgainExactly(env: Env, s: Server, check: Check, again: Check)
    requires s.input != "" && Restarts(env, s, check)
    ensures var h, t := Encode(env, Offered(s, check)).value, Tick(env, s, check);
            && t.handled == s.handled
            && (t.input != "" && Restarts(env, t, again) <==>
                  !Decodes(env, h) && t.input != "" && CanRestart(env, t, again))
            && (Decodes(env, h) ==> t.input != "")
  {
    var h := Encode(env, Offered(s, check)).value;
    assert h.input == HandedInput(s, check.buffered) && |h.input| > 0;
  }

  /** So a server that took its handoff over cannot restart twice without handling a message in between. */
  lemma NoRestartLoop(env: Env, s: Server, check: Check, again: Check)
    requires s.input != "" && Restarts(env, s, check) && Decodes(env, Encode(env, Offered(s, check)).value)
    ensures var t := Tick(env, s, check); t.input != "" && !Restarts(env, t, again)
  {
    RestartsAgainExactly(env, s, check, again);
  }

  /** A server that restarts again after a refusal has lost a message each time, so it cannot do so for ever. */
  lemma RefusalLosesAMessage(env: Env, s: Server, check: Check)
    requires s.input != "" && Restarts(env, s, check) && !Decodes(env, Encode(env, Offered(s, check)).value)
    ensures |Messages(Tick(env, s, check).input)| < |Messages(s.input)|
  {
    SuffixHasFewer(AfterFirst(s.input), check.buffered);
  }

  function ClientLength(client: Option<Client>): nat {
    if client.Some? then |client.value.name| + |client.value.version| else 0
  }

  /** JSON takes at most six bytes for a character, base64 less, and the rest of a handoff without directories is of
      fixed length. */
  ghost predicate EncodesAsJson(env: Env) {
    && |env.ownLog| <= MAX_FIELD
    && forall h: Handoff | h.roots.dirs == [] ::
         0 < env.encoded(h) <=
         MAX_FIELD + 6 * (|h.from| + |h.session.protocol| + ClientLength(h.session.client) + |h.session.log| + |h.input|)
  }

  /** Two restarts with nothing handled in between, however handoffs are encoded: a client name that is too long, and a
      program that still counts as replaced. */
  lemma TwoRestartsInARow(env: Env)
    requires EncodesAsJson(env)
    ensures exists s: Server, check: Check :: RestartsTwice(env, s, check)
  {
    var s, check := LongNamed();
    RefusedTwice(env, s, check);
  }

  /** A server whose client has a long name, and two short lines. */
  lemma LongNamed() returns (s: Server, check: Check)
    ensures IsLongNamed(s, check)
  {
    var input := TwoLines();
    s := Server(input, Session("", Some(Client(seq(MAX_FIELD + 1, i => 'n'), "1")), ""), false, false, []);
    check := Replaced(true, false, false, 0, "1", Roots(false, false, 0, false, []));
  }

  predicate IsLongNamed(s: Server, check: Check) {
    && s.input != "" && |FirstMessage(s.input)| == 1 && !s.tried && !s.skip
    && AfterFirst(s.input) != "" && |FirstMessage(AfterFirst(s.input))| == 1
    && IsPlain(check) && s.session.protocol == "" && s.session.log == ""
    && s.session.client.Some? && |s.session.client.value.name| == MAX_FIELD + 1 && |s.session.client.value.version| == 1
  }

  predicate IsPlain(check: Check) {
    check.Replaced? && check.executable && !check.writeFailed && !check.execFails && check.buffered == 0 &&
    |check.from| == 1 && check.roots.dirs == []
  }

  predicate RestartsTwice(env: Env, s: Server, check: Check) {
    s.input != "" && Restarts(env, s, check) &&
    var t := Tick(env, s, check);
    t.input != "" && Restarts(env, t, check) && Tick(env, t, check).handled == s.handled
  }

  lemma RefusedTwice(env: Env, s: Server, check: Check)
    requires EncodesAsJson(env) && IsLongNamed(s, check)
    ensures RestartsTwice(env, s, check)
  {
    RestartsAtOnce(env, s, check);
    NameIsRefused(env, s, check);
    RestartsAtOnce(env, Tick(env, s, check), check);
  }

  lemma NameIsRefused(env: Env, s: Server, check: Check)
    requires IsLongNamed(s, check) && Restarts(env, s, check)
    ensures Tick(env, s, check) == Server(AfterFirst(s.input), NewSession(env), false, false, s.handled)
  {
    assert AfterFirst(s.input)[0..] == AfterFirst(s.input);
  }

  lemma RestartsAtOnce(env: Env, s: Server, check: Check)
    requires s.input != "" && |FirstMessage(s.input)| == 1 && !s.tried && !s.skip && IsPlain(check)
    requires EncodesAsJson(env) && s.session.protocol == "" && |s.session.log| <= MAX_FIELD
    requires ClientLength(s.session.client) <= MAX_FIELD + 2
    ensures Restarts(env, s, check) && Tick(env, s, check).handled == s.handled
  {
    assert |HandedInput(s, 0)| == 2;
    assert env.encoded(Offered(s, check)) <= MAX_HANDOFF;
  }

  lemma TwoLines() returns (input: string)
    ensures input != "" && |FirstMessage(input)| == 1
    ensures AfterFirst(input) != "" && |FirstMessage(AfterFirst(input))| == 1
  {
    var rest := "b" + ("\n" + "");
    input := "a" + ("\n" + rest);
    PutBack("a", rest);
    PutBack("b", "");
  }

  // ---------------------------------------------------------------- the states a server reaches

  /** What `initialize`, `decodeMCPClientInfo` and the log leave a session with. */
  predicate SessionReached(env: Env, session: Session) {
    && (session.protocol == "" || session.protocol in LEGACY_VERSIONS)
    && (session.client.Some? ==> (session.client.value.name != "" && session.client.value.version != ""))
    && (session.log == "" || env.validLog(session.log))
  }

  ghost predicate Lawful(env: Env) {
    && (env.ownLog == "" || env.validLog(env.ownLog))
    && forall session, line | SessionReached(env, session) :: SessionReached(env, env.handle(session, line))
  }

  /** What a server hands over about itself: its own version, and roots as rootDirs reads them. */
  predicate CheckReached(env: Env, check: Check) {
    check.Replaced? ==> (VersionFits(env, check.from) && RootsFit(env, check.roots))
  }

  lemma ReachedHandoffDecodes(env: Env, s: Server, check: Check)
    requires s.input != "" && Restarts(env, s, check) && SessionReached(env, s.session) && CheckReached(env, check)
    ensures Decodes(env, Encode(env, Offered(s, check)).value) <==> ClientIsShort(s.session.client)
  {
    var h := Encode(env, Offered(s, check)).value;
    assert h.session == s.session && h.from == check.from && h.input == HandedInput(s, check.buffered);
  }

  /** Of a server in a state it can reach, a restart is lossless exactly when the client's name and version are
      at most 1024 bytes long and the message does not end in a carriage return of its own. */
  lemma ReachedRestartIsLossless(env: Env, s: Server, check: Check)
    requires s.input != "" && Restarts(env, s, check) && SessionReached(env, s.session) && CheckReached(env, check)
    ensures Messages(Tick(env, s, check).input) == Messages(s.input) <==>
            ClientIsShort(s.session.client) && !EndsInReturn(FirstMessage(s.input))
    ensures var t := Tick(env, s, check).session;
            t.protocol == s.session.protocol && t.client == s.session.client <==> ClientIsShort(s.session.client)
  {
    ReachedHandoffDecodes(env, s, check);
    RestartKeepsMessagesExactly(env, s, check);
    RestartKeepsSession(env, s, check);
  }

  lemma TickReaches(env: Env, s: Server, check: Check)
    requires s.input != "" && Lawful(env) && SessionReached(env, s.session)
    ensures SessionReached(env, Tick(env, s, check).session)
  {
    if Restarts(env, s, check) { assert Encode(env, Offered(s, check)).value.session == s.session; }
  }

  // ---------------------------------------------------------------- whole runs

  /** Every restart among the rounds is decoded and hands over a message without a stray carriage return, and
      processes have log sessions. */
  predicate CleanRun(env: Env, s: Server, checks: seq<Check>)
    decreases |checks|
  {
    checks == [] || s.input == "" ||
    ((Restarts(env, s, checks[0]) ==>
        Decodes(env, Encode(env, Offered(s, checks[0])).value) && !EndsInReturn(FirstMessage(s.input)) &&
        s.session.log != "") &&
     CleanRun(env, Tick(env, s, checks[0]), checks[1..]))
  }

  function Run(env: Env, s: Server, checks: seq<Check>): Server
    decreases |checks|
  {
    if checks == [] || s.input == "" then s else Run(env, Tick(env, s, checks[0]), checks[1..])
  }

  /** The session after handling messages without any restart. */
  function After(env: Env, session: Session, messages: seq<string>): Session {
    if messages == [] then session
    else Effect(env, After(env, session, messages[..|messages| - 1]), messages[|messages| - 1])
  }

  lemma AfterOneMore(env: Env, start: Session, handled: seq<string>, line: string)
    ensures After(env, start, handled + [line]) == Effect(env, After(env, start, handled), line)
  {
    assert (handled + [line])[..|handled|] == handled;
  }

  lemma HandleIsTransparent(env: Env, start: Session, s: Server)
    requires s.input != "" && s.session == After(env, start, s.handled)
    ensures var t := Handle(env, s);
            t.handled + Messages(t.input) == s.handled + Messages(s.input) &&
            t.session == After(env, start, t.handled)
  {
    AfterOneMore(env, start, s.handled, FirstMessage(s.input));
    MessagesStep(s.input);
    MovedOver(s.handled, FirstMessage(s.input), Messages(AfterFirst(s.input)));
  }

  lemma MovedOver(handled: seq<string>, line: string, rest: seq<string>)
    ensures handled + ([line] + rest) == (handled + [line]) + rest
  {
  }

  lemma TickIsTransparent(env: Env, start: Session, s: Server, check: Check)
    requires s.input != "" && s.session == After(env, start, s.handled)
    requires Restarts(env, s, check) ==>
               (Decodes(env, Encode(env, Offered(s, check)).value) && !EndsInReturn(FirstMessage(s.input)) &&
                s.session.log != "")
    ensures var t := Tick(env, s, check);
            t.handled + Messages(t.input) == s.handled + Messages(s.input) &&
            t.session == After(env, start, t.handled)
  {
    if Restarts(env, s, check) {
      RestartKeepsMessagesExactly(env, s, check);
      RestartKeepsSession(env, s, check);
    } else {
      HandleIsTransparent(env, start, s);
    }
  }

  /** With restarts at any rounds, any buffering, and any failed attempts in between, the client's stream is
      handled as if there were none: every message once, in order, in the same session. */
  lemma {:induction false} RestartsAreTransparent(env: Env, start: Session, s: Server, checks: seq<Check>)
    requires CleanRun(env, s, checks) && s.session == After(env, start, s.handled)
    ensures var t := Run(env, s, checks);
            t.handled + Messages(t.input) == s.handled + Messages(s.input) &&
            t.session == After(env, start, t.handled)
    decreases |checks|
  {
    if checks != [] && s.input != "" {
      TickIsTransparent(env, start, s, checks[0]);
      RestartsAreTransparent(env, start, Tick(env, s, checks[0]), checks[1..]);
    }
  }

  /** A run that has read all its input handled exactly the messages of the stream. */
  lemma FinishedRunHandledAll(env: Env, start: Session, input: string, checks: seq<Check>)
    requires var s := Server(input, start, false, false, []);
             CleanRun(env, s, checks) && Run(env, s, checks).input == ""
    ensures var t := Run(env, Server(input, start, false, false, []), checks);
            t.handled == Messages(input) && t.session == After(env, start, Messages(input))
  {
    var s := Server(input, start, false, false, []);
    RestartsAreTransparent(env, start, s, checks);
    var t := Run(env, s, checks);
    assert t.handled + Messages(t.input) == t.handled && s.handled + Messages(input) == Messages(input);
  }

  /** Every restart is of a client with short names, a log session, and a message without a stray carriage return. */
  predicate PlainRun(env: Env, s: Server, checks: seq<Check>)
    decreases |checks|
  {
    checks == [] || s.input == "" ||
    (CheckReached(env, checks[0]) &&
     (Restarts(env, s, checks[0]) ==>
        ClientIsShort(s.session.client) && !EndsInReturn(FirstMessage(s.input)) && s.session.log != "") &&
     PlainRun(env, Tick(env, s, checks[0]), checks[1..]))
  }

  /** In the states servers reach, that is all it takes for restarts to be transparent. */
  lemma {:induction false} PlainRunIsClean(env: Env, s: Server, checks: seq<Check>)
    requires Lawful(env) && SessionReached(env, s.session) && PlainRun(env, s, checks)
    ensures CleanRun(env, s, checks) && SessionReached(env, Run(env, s, checks).session)
    decreases |checks|
  {
    if checks != [] && s.input != "" {
      if Restarts(env, s, checks[0]) { ReachedHandoffDecodes(env, s, checks[0]); }
      TickReaches(env, s, checks[0]);
      PlainRunIsClean(env, Tick(env, s, checks[0]), checks[1..]);
    }
  }
}
