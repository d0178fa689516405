/** Tool calls of the MCP server: started by the reading loop, run concurrently, cancelled at any time, and
    answered at most once (startToolCall, cancel, cancelAll and serve in internal/cli/mcp.go). The atomic steps
    are the sections the server runs under its mutex; writing to stdout succeeds. */
module McpCalls {

  const MAX_IN_FLIGHT := 16

  /** Working: the call runs, up to the section that answers it. Settled: that section is over. Left: the wait
      group was told. */
  datatype Phase = Working | Settled | Left

  datatype Call = Call(key: string, cancelled: bool, phase: Phase)

  /** Reading: messages are handled. Draining: the input ended and the wait group is waited for. */
  datatype Loop = Reading | Draining | Stopped

  /** `calls` are the accepted calls in the order they were accepted; a call is known by its position.
      `pending` maps a request id to the call it belongs to, `answers` are the calls whose result was written. */
  datatype State = State(calls: seq<Call>, pending: map<string, nat>, wg: int, answers: seq<nat>, loop: Loop)

  const INITIAL := State([], map[], 0, [], Reading)

  datatype Step =
    | Start(key: string)
    | Complete(n: nat)
    | Leave(n: nat)
    | Cancel(key: string)
    | ReadError
    | EndOfInput
    | Stop

  predicate Enabled(st: State, step: Step) {
    match step
    case Complete(n) => n < |st.calls| && st.calls[n].phase == Working
    case Leave(n) => n < |st.calls| && st.calls[n].phase == Settled
    case Stop => st.loop == Draining && st.wg == 0
    case _ => st.loop == Reading
  }

  predicate Accepted(st: State, key: string) { key !in st.pending && |st.pending| < MAX_IN_FLIGHT }

  function Started(st: State, key: string): State {
    if Accepted(st, key)
    then st.(calls := st.calls + [Call(key, false, Working)], pending := st.pending[key := |st.calls|], wg := st.wg + 1)
    else st
  }

  function Completed(st: State, n: nat): State
    requires n < |st.calls|
  {
    st.(answers := if st.calls[n].cancelled then st.answers else st.answers + [n],
        pending := st.pending - {st.calls[n].key},
        calls := st.calls[n := st.calls[n].(phase := Settled)])
  }

  function Cancelled(st: State, key: string): State {
    if key in st.pending && st.pending[key] < |st.calls|
    then st.(calls := st.calls[st.pending[key] := st.calls[st.pending[key]].(cancelled := true)])
    else st
  }

  function AllCancelled(st: State): State {
    st.(calls := seq(|st.calls|, i requires 0 <= i < |st.calls| =>
      if i in st.pending.Values then st.calls[i].(cancelled := true) else st.calls[i]))
  }

  function Next(st: State, step: Step): State
    requires Enabled(st, step)
  {
    match step
    case Start(key) => Started(st, key)
    case Complete(n) => Completed(st, n)
    case Leave(n) => st.(calls := st.calls[n := st.calls[n].(phase := Left)], wg := st.wg - 1)
    case Cancel(key) => Cancelled(st, key)
    case ReadError => AllCancelled(st).(loop := Draining)
    case EndOfInput => st.(loop := Draining)
    case Stop => st.(loop := Stopped)
  }

  predicate IsRun(st: State, steps: seq<Step>)
    decreases |steps|
  {
    steps == [] || (Enabled(st, steps[0]) && IsRun(Next(st, steps[0]), steps[1..]))
  }

  function Run(st: State, steps: seq<Step>): State
    requires IsRun(st, steps)
    decreases |steps|
  {
    if steps == [] then st else Run(Next(st, steps[0]), steps[1..])
  }

  // ---------------------------------------------------------------- the server's own code

  /** The fields the mutex guards, and the wait group. */
  class McpServer {
    var calls: seq<Call>
    var pending: map<string, nat>
    var wg: int
    var answers: seq<nat>
    var loop: Loop

    ghost function Fields(): State
      reads this
    {
      State(calls, pending, wg, answers, loop)
    }

    constructor ()
      ensures Fields() == INITIAL
    {
      calls, pending, wg, answers, loop := [], map[], 0, [], Reading;
    }

    /** The section of `startToolCall` that admits a call or refuses it. */
    method StartToolCall(key: string) returns (accepted: bool)
      modifies this
      ensures Fields() == Started(old(Fields()), key) && accepted == Accepted(old(Fields()), key)
    {
      if key in pending {
        return false;
      }
      if |pending| >= MAX_IN_FLIGHT {
        return false;
      }
      pending := pending[key := |calls|];
      calls := calls + [Call(key, false, Working)];
      wg := wg + 1;
      return true;
    }

    /** The section that answers call `n`, unless it was cancelled, and forgets it. */
    method CompleteCall(n: nat)
      requires n < |calls|
      modifies this
      ensures Fields() == Completed(old(Fields()), n)
    {
      if !calls[n].cancelled {
        answers := answers + [n];
      }
      pending := pending - {calls[n].key};
      calls := calls[n := calls[n].(phase := Settled)];
    }

    method CancelCall(key: string)
      requires Valid(Fields())
      modifies this`calls
      ensures Fields() == Cancelled(old(Fields()), key)
    {
      if key in pending && !calls[pending[key]].cancelled {
        calls := calls[pending[key] := calls[pending[key]].(cancelled := true)];
      }
    }

    /** `cancelAll`: every pending call, in any order. */
    method CancelAll()
      requires Valid(Fields())
      modifies this`calls
      ensures Fields() == AllCancelled(old(Fields()))
    {
      ghost var before := calls;
      var todo := pending.Keys;
      while todo != {}
        invariant todo <= pending.Keys && |calls| == |before|
        invariant forall i | 0 <= i < |before| ::
            calls[i] == if i in pending.Values && before[i].key !in todo then before[i].(cancelled := true) else before[i]
        decreases |todo|
      {
        var key :| key in todo;
        assert pending[key] in pending.Values;
        calls := calls[pending[key] := calls[pending[key]].(cancelled := true)];
        todo := todo - {key};
      }
    }
  }

  // ---------------------------------------------------------------- the invariant

  /** The number of calls the wait group counts. */
  function Inside(calls: seq<Call>): nat {
    if calls == [] then 0
    else Inside(calls[..|calls| - 1]) + if calls[|calls| - 1].phase == Left then 0 else 1
  }

  predicate PendingFits(st: State) {
    && |st.pending| <= MAX_IN_FLIGHT
    && (forall k | k in st.pending ::
          st.pending[k] < |st.calls| && st.calls[st.pending[k]].key == k && st.calls[st.pending[k]].phase == Working)
    && (forall n | 0 <= n < |st.calls| && st.calls[n].phase == Working ::
          st.calls[n].key in st.pending && st.pending[st.calls[n].key] == n)
  }

  /** A call is among the answers exactly when it is over and was not cancelled before. */
  predicate AnswersFit(st: State) {
    && (forall i | 0 <= i < |st.answers| :: st.answers[i] < |st.calls|)
    && (forall i, j | 0 <= i < j < |st.answers| :: st.answers[i] != st.answers[j])
    && (forall n | 0 <= n < |st.calls| ::
          n in st.answers <==> st.calls[n].phase != Working && !st.calls[n].cancelled)
  }

  predicate Valid(st: State) {
    PendingFits(st) && AnswersFit(st) && st.wg == Inside(st.calls) && (st.loop == Stopped ==> st.wg == 0)
  }

  lemma {:induction false} InsideUpdate(calls: seq<Call>, n: nat, c: Call)
    requires n < |calls|
    ensures Inside(calls[n := c]) ==
            Inside(calls) - (if calls[n].phase == Left then 0 else 1) + (if c.phase == Left then 0 else 1)
  {
    var last := |calls| - 1;
    if n == last {
      assert calls[n := c][..last] == calls[..last];
    } else {
      assert calls[n := c][..last] == calls[..last][n := c];
      InsideUpdate(calls[..last], n, c);
    }
  }

  lemma {:induction false} InsideSame(calls: seq<Call>, other: seq<Call>)
    requires |calls| == |other| && forall i | 0 <= i < |calls| :: calls[i].phase == other[i].phase
    ensures Inside(calls) == Inside(other)
  {
    if calls != [] { InsideSame(calls[..|calls| - 1], other[..|other| - 1]); }
  }

  lemma {:induction false} InsideZero(calls: seq<Call>)
    ensures Inside(calls) == 0 <==> forall i | 0 <= i < |calls| :: calls[i].phase == Left
  {
    if calls != [] {
      var front := calls[..|calls| - 1];
      InsideZero(front);
      assert calls == front + [calls[|calls| - 1]];
      if forall i | 0 <= i < |calls| :: calls[i].phase == Left {
        forall i | 0 <= i < |front| ensures front[i].phase == Left { assert front[i] == calls[i]; }
      }
    }
  }

  lemma StartKeepsPending(st: State, key: string)
    requires Valid(st)
    ensures PendingFits(Started(st, key))
    ensures Started(st, key).wg == Inside(Started(st, key).calls)
  {
    if Accepted(st, key) {
      var t := Started(st, key);
      assert t.calls[..|t.calls| - 1] == st.calls;
      assert t.pending.Keys == st.pending.Keys + {key};
    }
  }

  lemma StartKeepsAnswers(st: State, key: string)
    requires Valid(st)
    ensures AnswersFit(Started(st, key))
  {
    var t := Started(st, key);
    forall n | 0 <= n < |t.calls| ensures n in t.answers <==> t.calls[n].phase != Working && !t.calls[n].cancelled {
      if n < |st.calls| { assert t.calls[n] == st.calls[n]; }
    }
  }

  lemma CompleteKeepsPending(st: State, n: nat)
    requires PendingFits(st) && Enabled(st, Complete(n))
    ensures PendingFits(Completed(st, n))
  {
    var t := Completed(st, n);
    assert t.pending.Keys == st.pending.Keys - {st.calls[n].key};
  }

  lemma CompleteKeepsAnswers(st: State, n: nat)
    requires AnswersFit(st) && Enabled(st, Complete(n))
    ensures AnswersFit(Completed(st, n))
  {
    var t := Completed(st, n);
    forall m | 0 <= m < |t.calls| ensures m in t.answers <==> t.calls[m].phase != Working && !t.calls[m].cancelled {
      assert m in t.answers <==> m in st.answers || (m == n && !st.calls[n].cancelled);
    }
  }

  lemma CancelledKeeps(st: State, calls: seq<Call>)
    requires Valid(st) && |calls| == |st.calls|
    requires forall i | 0 <= i < |calls| :: calls[i] == st.calls[i] ||
               (calls[i] == st.calls[i].(cancelled := true) && i in st.pending.Values)
    ensures Valid(st.(calls := calls))
  {
    InsideSame(calls, st.calls);
    forall n | 0 <= n < |calls| && n in st.pending.Values ensures st.calls[n].phase == Working {
      var k :| k in st.pending && st.pending[k] == n;
    }
  }

  /** Every step keeps the invariant. */
  lemma NextKeeps(st: State, step: Step)
    requires Valid(st) && Enabled(st, step)
    ensures Valid(Next(st, step))
  {
    match step
    case Start(key) =>
      StartKeepsPending(st, key);
      StartKeepsAnswers(st, key);
    case Complete(n) =>
      CompleteKeepsPending(st, n);
      CompleteKeepsAnswers(st, n);
      InsideUpdate(st.calls, n, st.calls[n].(phase := Settled));
    case Leave(n) => LeaveKeeps(st, n);
    case Cancel(key) =>
      if key in st.pending { assert st.pending[key] in st.pending.Values; }
      CancelledKeeps(st, Cancelled(st, key).calls);
    case ReadError => CancelledKeeps(st, AllCancelled(st).calls);
    case _ =>
  }

  lemma LeaveKeeps(st: State, n: nat)
    requires Valid(st) && Enabled(st, Leave(n))
    ensures Valid(Next(st, Leave(n)))
  {
    var t := Next(st, Leave(n));
    InsideUpdate(st.calls, n, st.calls[n].(phase := Left));
    InsideZero(st.calls);
    assert st.loop != Stopped;
  }

  lemma {:induction false} RunKeeps(st: State, steps: seq<Step>)
    requires Valid(st) && IsRun(st, steps)
    ensures Valid(Run(st, steps))
    decreases |steps|
  {
    if steps != [] {
      NextKeeps(st, steps[0]);
      RunKeeps(Next(st, steps[0]), steps[1..]);
    }
  }

  function Times(n: nat, answers: seq<nat>): nat { multiset(answers)[n] }

  lemma {:induction false} OnceAtMost(answers: seq<nat>, n: nat)
    requires forall i, j | 0 <= i < j < |answers| :: answers[i] != answers[j]
    ensures Times(n, answers) == if n in answers then 1 else 0
    decreases |answers|
  {
    if answers != [] {
      assert answers == [answers[0]] + answers[1..];
      OnceAtMost(answers[1..], n);
      if n in answers[1..] {
        var i :| 0 <= i < |answers| - 1 && answers[1..][i] == n;
        assert answers[i + 1] == n;
      }
    }
  }

  /** Over every interleaving: at most 16 calls are in flight, no two of them share a request id, and each
      accepted call is answered once when it is over, or never if it was cancelled before. */
  lemma EveryCallIsAnsweredOnce(steps: seq<Step>)
    requires IsRun(INITIAL, steps)
    ensures var st := Run(INITIAL, steps);
            && |st.pending| <= MAX_IN_FLIGHT
            && (forall m, n | 0 <= m < n < |st.calls| && st.calls[m].phase == st.calls[n].phase == Working ::
                  st.calls[m].key != st.calls[n].key)
            && (forall n | 0 <= n < |st.calls| ::
                  Times(n, st.answers) == if st.calls[n].phase != Working && !st.calls[n].cancelled then 1 else 0)
  {
    InsideZero([]);
    RunKeeps(INITIAL, steps);
    var st := Run(INITIAL, steps);
    forall n | 0 <= n < |st.calls|
      ensures Times(n, st.answers) == if st.calls[n].phase != Working && !st.calls[n].cancelled then 1 else 0
    {
      OnceAtMost(st.answers, n);
    }
  }

  /** When the wait group is zero, as when the server stops or hands its session over, no call is pending and
      every accepted call was answered or cancelled. */
  lemma WaitedForMeansSettled(steps: seq<Step>)
    requires IsRun(INITIAL, steps) && (Run(INITIAL, steps).wg == 0 || Run(INITIAL, steps).loop == Stopped)
    ensures var st := Run(INITIAL, steps);
            st.pending == map[] &&
            forall n | 0 <= n < |st.calls| ::
              st.calls[n].phase == Left && (Times(n, st.answers) == 1 || st.calls[n].cancelled)
  {
    InsideZero([]);
    RunKeeps(INITIAL, steps);
    var st := Run(INITIAL, steps);
    InsideZero(st.calls);
    EveryCallIsAnsweredOnce(steps);
  }

  // ---------------------------------------------------------------- history

  /** What no step takes back: a call keeps its place and key, a cancellation and an answer stay, and a
      cancellation never follows the answer. */
  predicate Later(st: State, t: State) {
    && |st.calls| <= |t.calls| && |st.answers| <= |t.answers| && t.answers[..|st.answers|] == st.answers
    && (forall n | 0 <= n < |st.calls| ::
          t.calls[n].key == st.calls[n].key && (st.calls[n].cancelled ==> t.calls[n].cancelled) &&
          (st.calls[n].phase != Working ==> t.calls[n].cancelled == st.calls[n].cancelled))
  }

  lemma NextIsLater(st: State, step: Step)
    requires Valid(st) && Enabled(st, step)
    ensures Later(st, Next(st, step))
  {
    if step == ReadError {
      forall n | 0 <= n < |st.calls| && n in st.pending.Values ensures st.calls[n].phase == Working {
        var k :| k in st.pending && st.pending[k] == n;
      }
    }
  }

  lemma {:induction false} RunIsLater(st: State, steps: seq<Step>)
    requires Valid(st) && IsRun(st, steps)
    ensures Later(st, Run(st, steps))
    decreases |steps|
  {
    if steps != [] {
      NextIsLater(st, steps[0]);
      NextKeeps(st, steps[0]);
      RunIsLater(Next(st, steps[0]), steps[1..]);
    }
  }

  /** A call cancelled while it works is never answered, whatever happens next. */
  lemma CancelledIsNeverAnswered(st: State, key: string, steps: seq<Step>)
    requires Valid(st) && st.loop == Reading && key in st.pending
    requires IsRun(Next(st, Cancel(key)), steps)
    ensures st.pending[key] !in Run(Next(st, Cancel(key)), steps).answers
  {
    var n := st.pending[key];
    var c := Next(st, Cancel(key));
    NextKeeps(st, Cancel(key));
    RunIsLater(c, steps);
    RunKeeps(c, steps);
    assert c.calls[n].cancelled;
  }

  // ---------------------------------------------------------------- who cancels, and who is refused

  lemma {:induction false} RunOneMore(st: State, front: seq<Step>, last: Step)
    requires IsRun(st, front + [last])
    ensures IsRun(st, front) && Enabled(Run(st, front), last)
    ensures Run(st, front + [last]) == Next(Run(st, front), last)
    decreases |front|
  {
    var steps := front + [last];
    if front == [] {
      assert steps == [last] && steps[1..] == [];
    } else {
      assert steps[1..] == front[1..] + [last] && steps[0] == front[0];
      RunOneMore(Next(st, front[0]), front[1..], last);
    }
  }

  predicate IsCancel(step: Step, key: string) { step == Cancel(key) || step == ReadError }

  /** At step `j` the client cancels call `n`, or the input breaks, after the call was accepted and before the section
      that answers it. */
  ghost predicate CancelledAt(steps: seq<Step>, n: nat, key: string, j: nat) {
    j < |steps| && IsCancel(steps[j], key) && Complete(n) !in steps[..j] &&
    IsRun(INITIAL, steps[..j]) && n < |Run(INITIAL, steps[..j]).calls|
  }

  ghost predicate IsCancelled(steps: seq<Step>, n: nat, key: string) { exists j: nat :: CancelledAt(steps, n, key, j) }

  lemma PendingWork(st: State, n: nat)
    requires PendingFits(st) && n < |st.calls|
    ensures n in st.pending.Values <==> st.calls[n].phase == Working
    ensures st.calls[n].key in st.pending && st.pending[st.calls[n].key] == n <==> st.calls[n].phase == Working
  {
    if st.calls[n].phase == Working { assert st.pending[st.calls[n].key] == n; }
  }

  /** A call as a step left it that was accepted before. */
  predicate FollowsCall(before: Call, step: Step, n: nat, after: Call) {
    && after.key == before.key
    && (after.phase != Working <==> before.phase != Working || step == Complete(n))
    && (after.cancelled <==> before.cancelled || (IsCancel(step, before.key) && before.phase == Working))
  }

  /** What one step does to call `n`. */
  lemma OldCallAfter(st: State, step: Step, n: nat)
    requires Valid(st) && Enabled(st, step) && n < |st.calls|
    ensures n < |Next(st, step).calls| && FollowsCall(st.calls[n], step, n, Next(st, step).calls[n])
  {
    PendingWork(st, n);
  }

  lemma NewCall(st: State, step: Step, n: nat)
    requires Enabled(st, step) && |st.calls| <= n < |Next(st, step).calls|
    ensures step.Start? && n == |st.calls| && Next(st, step).calls[n] == Call(step.key, false, Working)
  {
  }

  lemma {:induction false} CompletedExactly(steps: seq<Step>, n: nat)
    requires IsRun(INITIAL, steps) && n < |Run(INITIAL, steps).calls|
    ensures Run(INITIAL, steps).calls[n].phase != Working <==> Complete(n) in steps
    decreases |steps|
  {
    if steps != [] {
      var front, last := steps[..|steps| - 1], steps[|steps| - 1];
      assert steps == front + [last];
      RunOneMore(INITIAL, front, last);
      var st := Run(INITIAL, front);
      ReachedIsValid(front);
      if n < |st.calls| {
        OldCallAfter(st, last, n);
        CompletedExactly(front, n);
      } else {
        NewCall(st, last, n);
        NotYetCompleted(front, n);
      }
    }
  }

  lemma ReachedIsValid(steps: seq<Step>)
    requires IsRun(INITIAL, steps)
    ensures Valid(Run(INITIAL, steps))
  {
    InsideZero([]);
    RunKeeps(INITIAL, steps);
  }

  /** What was not accepted was not completed. */
  lemma {:induction false} NotYetCompleted(steps: seq<Step>, n: nat)
    requires IsRun(INITIAL, steps) && n >= |Run(INITIAL, steps).calls|
    ensures Complete(n) !in steps
    decreases |steps|
  {
    if steps != [] {
      var front, last := steps[..|steps| - 1], steps[|steps| - 1];
      assert steps == front + [last];
      RunOneMore(INITIAL, front, last);
      ReachedIsValid(front);
      NextIsLater(Run(INITIAL, front), last);
      NotYetCompleted(front, n);
    }
  }

  /** Cancelled before the last step. */
  lemma CancelledBefore(front: seq<Step>, last: Step, steps: seq<Step>, n: nat, key: string)
    requires steps == front + [last]
    ensures IsCancelled(steps, n, key) <==> IsCancelled(front, n, key) || CancelledAt(steps, n, key, |front|)
  {
    if j: nat :| CancelledAt(steps, n, key, j) {
      assert j < |front| ==> steps[..j] == front[..j] && CancelledAt(front, n, key, j);
    }
    if j: nat :| CancelledAt(front, n, key, j) {
      assert steps[..j] == front[..j];
      assert CancelledAt(steps, n, key, j);
    }
  }

  lemma NotAcceptedNotCancelled(steps: seq<Step>, n: nat, key: string)
    requires IsRun(INITIAL, steps) && n >= |Run(INITIAL, steps).calls|
    ensures !IsCancelled(steps, n, key)
  {
    if j: nat :| CancelledAt(steps, n, key, j) { CallsGrow(steps, j); }
  }

  lemma {:induction false} CallsGrow(steps: seq<Step>, j: nat)
    requires IsRun(INITIAL, steps) && j <= |steps|
    ensures IsRun(INITIAL, steps[..j]) && |Run(INITIAL, steps[..j]).calls| <= |Run(INITIAL, steps).calls|
    decreases |steps|
  {
    if j == |steps| {
      assert steps[..j] == steps;
    } else {
      var front, last := steps[..|steps| - 1], steps[|steps| - 1];
      assert steps == front + [last] && front[..j] == steps[..j];
      RunOneMore(INITIAL, front, last);
      ReachedIsValid(front);
      NextIsLater(Run(INITIAL, front), last);
      CallsGrow(front, j);
    }
  }

  /** Over every run: a call is cancelled exactly if the client cancelled it, or the input broke, while it was not yet
      over; nothing else cancels, and nothing takes a cancellation back. */
  lemma {:induction false} CancelledExactly(steps: seq<Step>, n: nat)
    requires IsRun(INITIAL, steps) && n < |Run(INITIAL, steps).calls|
    ensures var c := Run(INITIAL, steps).calls[n]; c.cancelled <==> IsCancelled(steps, n, c.key)
    decreases |steps|
  {
    if steps != [] {
      var front, last := steps[..|steps| - 1], steps[|steps| - 1];
      assert steps == front + [last] && steps[..|front|] == front;
      RunOneMore(INITIAL, front, last);
      ReachedIsValid(front);
      var st, key := Run(INITIAL, front), Run(INITIAL, steps).calls[n].key;
      CancelledBefore(front, last, steps, n, key);
      if n < |st.calls| {
        OldCallAfter(st, last, n);
        CancelledExactly(front, n);
        CompletedExactly(front, n);
      } else {
        NewCall(st, last, n);
        NotAcceptedNotCancelled(front, n, key);
      }
    }
  }

  /** So every call that is over, and that neither the client nor a broken input cancelled, was answered once. */
  lemma UncancelledIsAnswered(steps: seq<Step>, n: nat)
    requires IsRun(INITIAL, steps) && n < |Run(INITIAL, steps).calls|
    requires ReadError !in steps && Cancel(Run(INITIAL, steps).calls[n].key) !in steps
    ensures Complete(n) in steps ==> Times(n, Run(INITIAL, steps).answers) == 1
  {
    var key := Run(INITIAL, steps).calls[n].key;
    CancelledExactly(steps, n);
    CompletedExactly(steps, n);
    EveryCallIsAnsweredOnce(steps);
    assert forall j: nat | CancelledAt(steps, n, key, j) :: steps[j] in steps;
  }

  /** The calls that are not over. */
  function InFlight(st: State): set<nat> { set n: nat | n < |st.calls| && st.calls[n].phase == Working }

  lemma {:induction false} InjectiveCount(m: map<string, nat>, keys: set<string>)
    requires keys <= m.Keys && forall j, k | j in m && k in m && j != k :: m[j] != m[k]
    ensures |set k | k in keys :: m[k]| == |keys|
    decreases |keys|
  {
    if keys != {} {
      var k :| k in keys;
      InjectiveCount(m, keys - {k});
      assert (set j | j in keys :: m[j]) == (set j | j in keys - {k} :: m[j]) + {m[k]};
    }
  }

  lemma InFlightArePending(st: State)
    requires PendingFits(st)
    ensures InFlight(st) == set k | k in st.pending.Keys :: st.pending[k]
  {
    forall n | n in InFlight(st) ensures n in set k | k in st.pending.Keys :: st.pending[k] {
      assert st.pending[st.calls[n].key] == n;
    }
  }

  /** A call is refused exactly when one of its id is not over, or 16 are not. */
  lemma RefusedExactly(st: State, key: string)
    requires Valid(st) && st.loop == Reading
    ensures Next(st, Start(key)) == st <==>
            (exists n | n in InFlight(st) :: st.calls[n].key == key) || |InFlight(st)| == MAX_IN_FLIGHT
    ensures Next(st, Start(key)) != st ==> |Next(st, Start(key)).calls| == |st.calls| + 1
  {
    forall j, k | j in st.pending && k in st.pending && j != k ensures st.pending[j] != st.pending[k] { }
    InjectiveCount(st.pending, st.pending.Keys);
    InFlightArePending(st);
    if key in st.pending { assert st.pending[key] in InFlight(st); }
  }

  // ---------------------------------------------------------------- progress

  /** Steps left before every accepted call is gone. */
  function Work(calls: seq<Call>): nat {
    if calls == [] then 0
    else Work(calls[..|calls| - 1]) +
         (match calls[|calls| - 1].phase case Working => 2 case Settled => 1 case Left => 0)
  }

  lemma {:induction false} WorkUpdate(calls: seq<Call>, n: nat, phase: Phase)
    requires n < |calls| && ((calls[n].phase == Working && phase == Settled) || (calls[n].phase == Settled && phase == Left))
    ensures Work(calls[n := calls[n].(phase := phase)]) == Work(calls) - 1
  {
    var last := |calls| - 1;
    var c := calls[n].(phase := phase);
    if n == last {
      assert calls[n := c][..last] == calls[..last];
    } else {
      assert calls[n := c][..last] == calls[..last][n := c];
      WorkUpdate(calls[..last], n, phase);
    }
  }

  /** The server cannot hang while it drains: a step is always possible, and each one is progress. */
  lemma DrainingEnds(st: State)
    requires Valid(st) && st.loop == Draining
    ensures exists step :: Enabled(st, step)
    ensures forall step | Enabled(st, step) && step != Stop ::
              Next(st, step).loop == Draining && Work(Next(st, step).calls) == Work(st.calls) - 1
  {
    InsideZero(st.calls);
    if st.wg == 0 {
      assert Enabled(st, Stop);
    } else {
      var n :| 0 <= n < |st.calls| && st.calls[n].phase != Left;
      assert Enabled(st, Complete(n)) || Enabled(st, Leave(n));
    }
    forall step | Enabled(st, step) && step != Stop
      ensures Next(st, step).loop == Draining && Work(Next(st, step).calls) == Work(st.calls) - 1
    {
      match step
      case Complete(n) => WorkUpdate(st.calls, n, Settled);
      case Leave(n) => WorkUpdate(st.calls, n, Left);
    }
  }
}
