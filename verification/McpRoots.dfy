/** The roots of an MCP session: asked for after initialized and list_changed notifications, answered late or
    never, reset by a new initialize, and handed over at a restart (resetRoots, requestRoots, receiveReply and
    sessionProjects in internal/cli/mcp.go, adopt and resume in internal/cli/mcp_restart.go). */
module McpRoots {
  import opened Wrappers
  import opened Utf8

  /** The request ids are "qatlas-roots-<n>"; a request is known by its number. Rounds are kept in the order
      they were made; `finished` tells the closed ones and `armed` those whose timer has not fired. */
  datatype Roots = Roots(
    offered: bool,
    listChanged: bool,
    sequence: nat,
    pending: Option<nat>,
    round: Option<nat>,
    dirs: seq<string>)

  /** Where the directories in force came from. */
  datatype Origin = NoAnswer | Adopted(adopted: seq<string>) | AnswerTo(request: nat, answer: seq<string>)

  /** One process. `asked` are the requests it sent, `current` the latest of them since the last initialize (or
      handover), and `origin` says what put `dirs` there. */
  datatype State = State(
    roots: Roots,
    rounds: nat,
    finished: set<nat>,
    armed: set<nat>,
    asked: seq<nat>,
    current: Option<nat>,
    origin: Origin,
    waiting: set<nat>)

  const FRESH := Roots(false, false, 0, None, None, [])

  const INITIAL := State(FRESH, 0, {}, {}, [], None, NoAnswer, {})

  /** What a restarting server hands over, with the version it restarts from. */
  datatype Handoff = Handoff(from: string, offered: bool, listChanged: bool, sequence: nat, ask: bool,
                             dirs: seq<string>)

  datatype Step =
    | Initialize(offered: bool, listChanged: bool)
    | Initialized
    | ListChanged
    | Reply(id: nat, isError: bool, answer: seq<string>)
    | Timeout(timed: nat)
    | Call
    | Proceed(ended: nat)

  function FinishRound(finished: set<nat>, round: Option<nat>): set<nat> {
    if round.Some? then finished + {round.value} else finished
  }

  function Reset(st: State, offered: bool, listChanged: bool): State {
    st.(roots := Roots(offered, listChanged, st.roots.sequence, None, None, []),
        finished := FinishRound(st.finished, st.roots.round), current := None, origin := NoAnswer)
  }

  function Requested(st: State, changed: bool): State {
    if !st.roots.offered || (changed && !st.roots.listChanged) then st
    else
      var id := st.roots.sequence + 1;
      st.(roots := st.roots.(sequence := id, pending := Some(id), round := Some(st.rounds), dirs := []),
          finished := FinishRound(st.finished, st.roots.round),
          rounds := st.rounds + 1, armed := st.armed + {st.rounds}, asked := st.asked + [id],
          current := Some(id), origin := NoAnswer)
  }

  /** An error answer leaves the working directory, as an empty list does. */
  function Received(st: State, id: nat, isError: bool, answer: seq<string>): State {
    if st.roots.pending != Some(id) then st
    else
      var dirs := if isError then [] else answer;
      st.(roots := st.roots.(pending := None, dirs := dirs), finished := FinishRound(st.finished, st.roots.round),
          origin := AnswerTo(id, dirs))
  }

  predicate Enabled(st: State, step: Step) {
    match step
    case Timeout(r) => r in st.armed
    case Proceed(r) => r in st.waiting && r in st.finished
    case _ => true
  }

  function Next(st: State, step: Step): State {
    match step
    case Initialize(offered, listChanged) => Reset(st, offered, listChanged)
    case Initialized => Requested(st, false)
    case ListChanged => Requested(st, true)
    case Reply(id, isError, answer) => Received(st, id, isError, answer)
    case Timeout(r) => st.(finished := st.finished + {r}, armed := st.armed - {r})
    case Call => if st.roots.round.Some? then st.(waiting := st.waiting + {st.roots.round.value}) else st
    case Proceed(r) => st.(waiting := st.waiting - {r})
  }

  predicate IsRun(st: State, steps: seq<Step>)
    decreases |steps|
  {
    steps == [] || (Enabled(st, steps[0]) && IsRun(Next(st, steps[0]), steps[1..]))
  }

  function Run(st: State, steps: seq<Step>): State
    decreases |steps|
  {
    if steps == [] then st else Run(Next(st, steps[0]), steps[1..])
  }

  function CarriedAll(dirs: seq<string>): seq<string> {
    seq(|dirs|, i requires 0 <= i < |dirs| => Carried(dirs[i]))
  }

  /** What `restartIfReplaced` passes on, as it is read from its JSON text; `fits` is false where the directories
      make the handoff too long. */
  function HandOver(st: State, from: string, fits: bool): Handoff {
    Handoff(from, st.roots.offered, st.roots.listChanged, st.roots.sequence,
            st.roots.pending.Some? || !fits, if fits then CarriedAll(st.roots.dirs) else [])
  }

  /** `adopt`, and `resume` for roots that are asked for again, which it leaves alone without a version handed
      over. A round that is already over stands for roots that were handed over. */
  function Adopt(h: Handoff): State {
    var roots := Roots(h.offered, h.listChanged, h.sequence, None, None, []);
    var blank := State(roots, 0, {}, {}, [], None, NoAnswer, {});
    if h.ask then if h.from != "" then Requested(blank, false) else blank
    else State(roots.(round := Some(0), dirs := h.dirs), 1, {0}, {}, [], None, Adopted(h.dirs), {})
  }

  // ---------------------------------------------------------------- the server's own code

  /** The roots state under its mutex. */
  class RootsOfSession {
    var roots: Roots
    var rounds: nat
    var finished: set<nat>
    var armed: set<nat>
    var asked: seq<nat>
    ghost var current: Option<nat>
    ghost var origin: Origin
    var waiting: set<nat>

    ghost function Fields(): State
      reads this
    {
      State(roots, rounds, finished, armed, asked, current, origin, waiting)
    }

    method Finish(round: nat)
      modifies this`finished
      ensures finished == old(finished) + {round}
    {
      finished := finished + {round};
    }

    method ResetRoots(offered: bool, listChanged: bool)
      modifies this
      ensures Fields() == Reset(old(Fields()), offered, listChanged)
    {
      if roots.round.Some? {
        Finish(roots.round.value);
      }
      roots := Roots(offered, listChanged, roots.sequence, None, None, []);
      current, origin := None, NoAnswer;
    }

    method RequestRoots(changed: bool)
      modifies this
      ensures Fields() == Requested(old(Fields()), changed)
    {
      if !roots.offered || (changed && !roots.listChanged) {
        return;
      }
      if roots.round.Some? {
        Finish(roots.round.value);
      }
      roots := roots.(sequence := roots.sequence + 1);
      var id, round := roots.sequence, rounds;
      rounds := rounds + 1;
      roots := roots.(round := Some(round), pending := Some(id), dirs := []);
      armed := armed + {round};
      asked := asked + [id];
      current, origin := Some(id), NoAnswer;
    }

    method ReceiveReply(id: nat, isError: bool, answer: seq<string>)
      requires Valid(Fields())
      modifies this
      ensures Fields() == Received(old(Fields()), id, isError, answer)
    {
      if roots.pending != Some(id) {
        return;
      }
      roots := roots.(pending := None, dirs := []);
      if !isError {
        roots := roots.(dirs := answer);
      }
      Finish(roots.round.value);
      origin := AnswerTo(id, roots.dirs);
    }
  }

  // ---------------------------------------------------------------- the invariant

  predicate RequestsFit(st: State) {
    && (forall i | 0 <= i < |st.asked| :: st.asked[i] <= st.roots.sequence)
    && (forall i, j | 0 <= i < j < |st.asked| :: st.asked[i] < st.asked[j])
    && (st.current.Some? ==> st.asked != [] && st.current.value == st.asked[|st.asked| - 1] == st.roots.sequence)
    && (st.roots.pending.Some? ==> st.roots.pending == st.current && st.roots.round.Some?)
  }

  predicate RoundsFit(st: State) {
    && (forall r | r in st.finished :: r < st.rounds)
    && (forall r | r in st.armed :: r < st.rounds)
    && (forall r | r in st.waiting :: r < st.rounds)
    && (st.roots.round.Some? ==> st.roots.round.value < st.rounds)
    && (forall r: nat :: r in st.finished || r >= st.rounds ||
          (r in st.armed && st.roots.round == Some(r) && st.roots.pending.Some?))
  }

  predicate DirsFit(st: State) {
    match st.origin
    case NoAnswer => st.roots.dirs == []
    case Adopted(dirs) => st.roots.dirs == dirs && st.current.None?
    case AnswerTo(id, dirs) => st.roots.dirs == dirs && st.current == Some(id) && st.roots.pending.None?
  }

  predicate Valid(st: State) { RequestsFit(st) && RoundsFit(st) && DirsFit(st) }

  /** Every step keeps the invariant. */
  lemma NextKeeps(st: State, step: Step)
    requires Valid(st) && Enabled(st, step)
    ensures Valid(Next(st, step))
  {
    assert RoundsFit(Next(st, step));
  }

  lemma {:induction false} RunKeeps(st: State, steps: seq<Step>)
    requires Valid(st) && IsRun(st, steps)
    ensures Valid(Run(st, steps))
    decreases |steps|
  {
    if steps != [] {
      NextKeeps(st, steps[0]);
      RunKeeps(Next(st, steps[0]), steps[1..]);
    }
  }

  predicate AllAbove(ids: seq<nat>, bound: nat) { forall i | 0 <= i < |ids| :: ids[i] > bound }

  lemma {:induction false} RunAsksAbove(st: State, steps: seq<Step>, bound: nat)
    requires Valid(st) && IsRun(st, steps) && AllAbove(st.asked, bound) && st.roots.sequence >= bound
    ensures AllAbove(Run(st, steps).asked, bound) && Run(st, steps).roots.sequence >= bound
    decreases |steps|
  {
    if steps != [] {
      NextKeeps(st, steps[0]);
      RunAsksAbove(Next(st, steps[0]), steps[1..], bound);
    }
  }

  // ---------------------------------------------------------------- over all runs

  predicate Ascending(ids: seq<nat>) { forall i, j | 0 <= i < j < |ids| :: ids[i] < ids[j] }

  /** A process from its start to the restart that ends it. */
  datatype Life = Life(steps: seq<Step>, from: string, fits: bool)

  /** The lives of the processes that hand one session on, from the first state `st`. */
  predicate IsChain(st: State, lives: seq<Life>)
    decreases |lives|
  {
    lives == [] || (IsRun(st, lives[0].steps) &&
                    IsChain(Adopt(HandOver(Run(st, lives[0].steps), lives[0].from, lives[0].fits)), lives[1..]))
  }

  /** All requests the client saw, across restarts. */
  function AskedInChain(st: State, lives: seq<Life>): seq<nat>
    decreases |lives|
  {
    if lives == [] then []
    else
      var end := Run(st, lives[0].steps);
      end.asked + AskedInChain(Adopt(HandOver(end, lives[0].from, lives[0].fits)), lives[1..])
  }

  lemma {:induction false} ChainAsks(st: State, lives: seq<Life>, bound: nat)
    requires Valid(st) && IsChain(st, lives) && AllAbove(st.asked, bound) && st.roots.sequence >= bound
    ensures Ascending(AskedInChain(st, lives)) && AllAbove(AskedInChain(st, lives), bound)
    decreases |lives|
  {
    if lives != [] {
      var end := Run(st, lives[0].steps);
      RunKeeps(st, lives[0].steps);
      RunAsksAbove(st, lives[0].steps, bound);
      var next := Adopt(HandOver(end, lives[0].from, lives[0].fits));
      AdoptedAsksAbove(end, lives[0].from, lives[0].fits);
      ChainAsks(next, lives[1..], end.roots.sequence);
      JoinAscending(end.asked, AskedInChain(next, lives[1..]), bound, end.roots.sequence);
    }
  }

  lemma AdoptedAsksAbove(end: State, from: string, fits: bool)
    requires Valid(end)
    ensures var next := Adopt(HandOver(end, from, fits));
            Valid(next) && AllAbove(next.asked, end.roots.sequence) && next.roots.sequence >= end.roots.sequence
    ensures Ascending(end.asked) && forall i | 0 <= i < |end.asked| :: end.asked[i] <= end.roots.sequence
  {
  }

  lemma JoinAscending(a: seq<nat>, b: seq<nat>, low: nat, mid: nat)
    requires Ascending(a) && Ascending(b) && AllAbove(a, low) && AllAbove(b, mid) && low <= mid
    requires forall i | 0 <= i < |a| :: a[i] <= mid
    ensures Ascending(a + b) && AllAbove(a + b, low)
  {
  }

  /** No roots/list id is issued twice, however often the client initializes, announces changes, answers late
      or not at all, and however often the server restarts. */
  lemma NoRequestIdTwice(lives: seq<Life>)
    requires IsChain(INITIAL, lives)
    ensures Ascending(AskedInChain(INITIAL, lives))
  {
    ChainAsks(INITIAL, lives, 0);
  }

  /** The directories in force are those handed over with no request since, or the answer to the latest
      request; an awaited answer is to the latest request and has a round. */
  predicate LatestAnswer(s: State) {
    && (s.roots.dirs != [] ==>
          (s.origin == Adopted(s.roots.dirs) && s.current.None?) ||
          (s.asked != [] && s.origin == AnswerTo(s.asked[|s.asked| - 1], s.roots.dirs)))
    && (s.roots.pending.Some? ==>
          s.roots.round.Some? && s.asked != [] && s.roots.pending.value == s.asked[|s.asked| - 1])
  }

  lemma DirsAreTheLatestAnswer(st: State, steps: seq<Step>)
    requires Valid(st) && IsRun(st, steps)
    ensures LatestAnswer(Run(st, steps))
  {
    RunKeeps(st, steps);
  }

  /** The client is asked exactly when its session begins, or its roots change, if it offers roots, and after a change
      if it announced changes; what it offers is what its last initialize said. */
  lemma AskedExactly(st: State, step: Step)
    requires Valid(st) && Enabled(st, step)
    ensures var asks := st.roots.offered && (step.Initialized? || (step.ListChanged? && st.roots.listChanged));
            Next(st, step).asked == if asks then st.asked + [st.roots.sequence + 1] else st.asked
    ensures var t := Next(st, step).roots;
            (t.offered, t.listChanged) ==
            if step.Initialize? then (step.offered, step.listChanged) else (st.roots.offered, st.roots.listChanged)
  {
  }

  /** What one step does to the directories: an answer that counts replaces them all, an error answer, a new session
      and a new request clear them, and nothing else touches them. */
  lemma DirsAfterStep(st: State, step: Step)
    requires Valid(st) && Enabled(st, step)
    ensures var t := Next(st, step);
            t.roots.dirs ==
            if step.Reply? && st.roots.pending == Some(step.id) then if step.isError then [] else step.answer
            else if step.Initialize? || t.asked != st.asked then []
            else st.roots.dirs
    ensures Next(st, step).asked != st.asked ==> !step.Reply? && |Next(st, step).asked| == |st.asked| + 1
  {
  }

  /** Step `j` is the client's answer to the latest request, and these are its directories. */
  ghost predicate AnsweredAt(st: State, steps: seq<Step>, j: nat, dirs: seq<string>, asked: seq<nat>) {
    j < |steps| && steps[j].Reply? && !steps[j].isError && steps[j].answer == dirs &&
    Run(st, steps[..j]).roots.pending == Some(steps[j].id) && Run(st, steps[..j]).asked == asked
  }

  /** In every run: directories in force are, as a whole, those the client answered to the latest request, or those of
      the start with no request since. */
  lemma {:induction false} DirsAreAnswered(st: State, steps: seq<Step>)
    requires Valid(st) && IsRun(st, steps)
    ensures var end := Run(st, steps);
            end.roots.dirs == [] || (end.roots.dirs == st.roots.dirs && end.asked == st.asked) ||
            exists j: nat :: AnsweredAt(st, steps, j, end.roots.dirs, end.asked)
    decreases |steps|
  {
    if steps != [] {
      var next, rest, end := Next(st, steps[0]), steps[1..], Run(st, steps);
      NextKeeps(st, steps[0]);
      DirsAfterStep(st, steps[0]);
      DirsAreAnswered(next, rest);
      if j: nat :| AnsweredAt(next, rest, j, end.roots.dirs, end.asked) {
        assert steps[..j + 1][1..] == rest[..j] && steps[..j + 1][0] == steps[0];
        assert AnsweredAt(st, steps, j + 1, end.roots.dirs, end.asked);
      } else if end.roots.dirs != [] && (end.roots.dirs != st.roots.dirs || end.asked != st.asked) {
        assert steps[..0] == [];
        assert AnsweredAt(st, steps, 0, end.roots.dirs, end.asked);
      }
    }
  }

  /** An answer to anything but the latest open request changes nothing. */
  lemma StaleReplyIsIgnored(st: State, id: nat, isError: bool, answer: seq<string>)
    requires Valid(st) && (st.asked == [] || id != st.asked[|st.asked| - 1] || st.roots.pending.None?)
    ensures Next(st, Reply(id, isError, answer)) == st
  {
  }

  /** A late answer to a request of the predecessor is never taken for one of the successor's own. */
  lemma PredecessorsRequestIsStale(h: Handoff, steps: seq<Step>, id: nat)
    requires IsRun(Adopt(h), steps) && id <= h.sequence
    ensures Run(Adopt(h), steps).roots.pending != Some(id)
  {
    RunAsksAbove(Adopt(h), steps, h.sequence);
    DirsAreTheLatestAnswer(Adopt(h), steps);
  }

  /** No tool call waits for ever: the round it waits for is over, or it is the latest one and its timer will
      end it; a call proceeds as soon as its round is over. */
  lemma NoCallIsStuck(st: State, steps: seq<Step>, r: nat)
    requires Valid(st) && IsRun(st, steps) && r in Run(st, steps).waiting
    ensures var s := Run(st, steps);
            if r in s.finished then Enabled(s, Proceed(r))
            else s.roots.round == Some(r) && s.roots.pending.Some? && Enabled(s, Timeout(r)) &&
                 Enabled(Next(s, Timeout(r)), Proceed(r))
  {
    RunKeeps(st, steps);
    var s := Run(st, steps);
    if r !in s.finished {
      assert r < s.rounds;
      assert r in Next(s, Timeout(r)).finished;
    }
  }

  /** A round that was replaced, answered or timed out is over. */
  lemma SupersededRoundsAreOver(st: State, step: Step)
    requires Valid(st) && Enabled(st, step) && st.roots.round.Some?
    ensures var t := Next(st, step);
            t.roots.round != st.roots.round || t.roots.pending.None? || step == Timeout(st.roots.round.value) ==>
            st.roots.round.value in t.finished
  {
    NextKeeps(st, step);
  }

  lemma AllCarriedExactly(dirs: seq<string>)
    ensures CarriedAll(dirs) == dirs <==> forall d | d in dirs :: IsUtf8(d)
  {
    forall i | 0 <= i < |dirs| ensures CarriedAll(dirs)[i] == dirs[i] <==> IsUtf8(dirs[i]) { CarriedExactly(dirs[i]); }
    if CarriedAll(dirs) == dirs {
      forall d | d in dirs ensures IsUtf8(d) {
        var i :| 0 <= i < |dirs| && dirs[i] == d;
        assert CarriedAll(dirs)[i] == dirs[i];
      }
    }
    if forall d | d in dirs :: IsUtf8(d) {
      assert forall i | 0 <= i < |dirs| :: dirs[i] in dirs;
      assert CarriedAll(dirs) == dirs;
    }
  }

  /** A restart keeps the directories exactly when no request is open, they fit and all are UTF-8, or there are none;
      the successor asks again under a new id exactly when a request is open or they do not fit, the client offers
      roots and a version is handed over. */
  lemma HandOverKeepsRoots(st: State, from: string, fits: bool)
    requires Valid(st)
    ensures var t := Adopt(HandOver(st, from, fits)).roots;
            && t.offered == st.roots.offered && t.listChanged == st.roots.listChanged
            && (t.dirs == st.roots.dirs <==>
                  (st.roots.pending.None? && fits && forall d | d in st.roots.dirs :: IsUtf8(d)) || st.roots.dirs == [])
            && (t.pending == Some(st.roots.sequence + 1) <==>
                  (st.roots.pending.Some? || !fits) && st.roots.offered && from != "")
            && (t.pending.None? || t.pending == Some(st.roots.sequence + 1))
  {
    var t := Adopt(HandOver(st, from, fits)).roots;
    AllCarriedExactly(st.roots.dirs);
    if st.roots.pending.None? && fits { assert t.dirs == CarriedAll(st.roots.dirs); } else { assert t.dirs == []; }
  }

  /** A client whose root is file:///srv/%FF: the restarted server runs in another directory and does not ask
      again. */
  lemma OddDirectoryIsLost()
    ensures exists steps: seq<Step> ::
              var st := Run(INITIAL, steps);
              var t := Adopt(HandOver(st, "1", true)).roots;
              IsRun(INITIAL, steps) && st.roots.dirs != [] && st.roots.pending.None? && t.dirs != st.roots.dirs &&
              t.dirs != [] && t.pending.None?
  {
    var odd := "/srv/" + [0xFF as char];
    var steps := [Initialize(true, false), Initialized, Reply(1, false, [odd])];
    OddByte("/srv/", odd);
    var st := AnsweredOnce(odd, steps);
    HandOverKeepsRoots(st, "1", true);
  }

  lemma OddByte(start: string, odd: string)
    requires (forall i | 0 <= i < |start| :: start[i] as int < 0x80) && odd == start + [0xFF as char]
    ensures !IsUtf8(odd)
  {
    if start != "" {
      assert odd[1..] == start[1..] + [0xFF as char];
      OddByte(start[1..], odd[1..]);
    }
  }

  lemma AnsweredOnce(dir: string, steps: seq<Step>) returns (st: State)
    requires steps == [Initialize(true, false), Initialized, Reply(1, false, [dir])]
    ensures IsRun(INITIAL, steps) && st == Run(INITIAL, steps) && Valid(st)
    ensures st.roots.dirs == [dir] && st.roots.pending.None?
  {
    var a := Next(INITIAL, steps[0]);
    var b := Next(a, steps[1]);
    st := Next(b, steps[2]);
    assert INITIAL.roots == FRESH && steps[1..][0] == steps[1] && steps[1..][1..] == [steps[2]];
    assert steps[1..][1..][1..] == [];
    assert Run(INITIAL, steps) == Run(a, steps[1..]) == Run(b, steps[1..][1..]) == Run(st, []);
    assert IsRun(st, []) && IsRun(b, steps[1..][1..]) && IsRun(a, steps[1..]);
    RunKeeps(INITIAL, steps);
  }
}
