/** Where the change that left a connection open came from: the walk back through the invocation log, past renames,
    against the connections followed forward through it (internal/approval/origin.go). */
module Origins {
  import opened Wrappers

  /** What was done to a connection (config.connection.create and so on), or something else. */
  datatype Operation = Create | Change | Delete | Rename | Other

  const SURFACES: set<string> := {"tui", "web", "cli"}
  const OUTSIDE := "outside"

  /** A line of a day file as the log reader reports it; a time of 0 is a missing one. */
  datatype Line = Line(parsed: bool, marker: bool, path: string, operation: Operation, connection: string,
                       former: string, success: bool, time: int, number: nat, macValid: bool, chainIntact: bool)

  datatype Origin = Origin(source: string, time: int, number: nat, verified: bool, formerly: string)

  /** A line by which one of qconnect's surfaces says what it did to a connection. */
  predicate IsEvent(l: Line) {
    l.parsed && !l.marker && l.success && l.path in SURFACES
  }

  // ---------------------------------------------------------------- connections through the log

  /** Which connection bears each name before line i, given which bore it before the log. A connection is known
      by the line that created it, or by a negative number when it is older than the log. */
  function Names(older: map<string, int>, log: seq<Line>, i: nat): map<string, int>
    requires i <= |log|
  {
    if i == 0 then older else After(Names(older, log, i - 1), log[i - 1], i - 1)
  }

  function After(names: map<string, int>, l: Line, i: nat): map<string, int> {
    if !IsEvent(l) then names
    else if l.operation == Create then names[l.connection := i]
    else if l.operation == Delete then names - {l.connection}
    else if l.operation == Rename && l.former in names then (names - {l.former})[l.connection := names[l.former]]
    else names
  }

  /** What a surface can do: create under a free name, change or delete what exists, rename to a free name. */
  predicate Possible(names: map<string, int>, l: Line) {
    IsEvent(l) ==>
      && (l.operation == Create ==> l.connection !in names && l.connection != "")
      && (l.operation == Change || l.operation == Delete ==> l.connection in names)
      && (l.operation == Rename ==> l.former in names && l.connection !in names && l.connection != "")
  }

  predicate Injective(names: map<string, int>) {
    forall a, b | a in names && b in names && names[a] == names[b] :: a == b
  }

  ghost predicate Consistent(older: map<string, int>, log: seq<Line>) {
    && Injective(older) && "" !in older && (forall n | n in older :: older[n] < 0)
    && forall i | 0 <= i < |log| :: Possible(Names(older, log, i), log[i])
  }

  predicate TimeOrdered(log: seq<Line>) {
    && (forall i | 0 <= i < |log| && IsEvent(log[i]) :: log[i].time != 0)
    && forall i, j | 0 <= i < j < |log| && IsEvent(log[i]) && IsEvent(log[j]) :: log[i].time <= log[j].time
  }

  /** Line i created or changed connection x after the cut-off. */
  predicate Explains(older: map<string, int>, log: seq<Line>, after: int, x: int, i: nat)
    requires i < |log|
  {
    && log[i].parsed && !log[i].marker && log[i].success && log[i].path in SURFACES
    && log[i].time > after && (log[i].operation == Create || log[i].operation == Change)
    && log[i].connection in Names(older, log, i + 1) && Names(older, log, i + 1)[log[i].connection] == x
  }

  /** The last of the first k lines that explains x. */
  ghost predicate IsYoungest(older: map<string, int>, log: seq<Line>, after: int, x: int, k: nat, found: Option<nat>)
    requires k <= |log|
  {
    match found
    case None => forall i | 0 <= i < k :: !Explains(older, log, after, x, i)
    case Some(i) => i < k && Explains(older, log, after, x, i) &&
                    forall j | i < j < k :: !Explains(older, log, after, x, j)
  }

  // ---------------------------------------------------------------- the walk

  predicate Skipped(l: Line, name: string, after: int) {
    !IsEvent(l) || l.connection != name || l.time == 0 || l.time <= after
  }

  predicate IsRename(l: Line) { l.operation == Rename && l.former != "" }

  predicate IsChange(l: Line) { l.operation == Create || l.operation == Change }

  /** The walk over the first k lines: the line found, and the name the connection had there. */
  function Walk(log: seq<Line>, k: nat, name: string, after: int): (r: Option<(nat, string)>)
    requires k <= |log|
    ensures r.Some? ==> r.value.0 < k
  {
    if k == 0 then None
    else
      var l := log[k - 1];
      if Skipped(l, name, after) then Walk(log, k - 1, name, after)
      else if IsRename(l) then Walk(log, k - 1, l.former, after)
      else if IsChange(l) then Some((k - 1, name))
      else Walk(log, k - 1, name, after)
  }

  function Flatten(days: seq<seq<Line>>): seq<Line> { if days == [] then [] else Flatten(days[..|days| - 1]) + days[|days| - 1] }

  /** The origin of a connection given what the walk found. */
  function OriginAt(log: seq<Line>, connection: string, found: Option<(nat, string)>, modified: int): Origin
    requires found.Some? ==> found.value.0 < |log|
  {
    match found
    case None => Origin(OUTSIDE, modified, 0, false, "")
    case Some((i, name)) =>
      Origin(log[i].path, log[i].time, log[i].number, log[i].macValid && log[i].chainIntact,
             if name != connection then name else "")
  }

  lemma {:induction false} FlattenPrefix(days: seq<seq<Line>>, i: nat)
    requires i <= |days|
    ensures Flatten(days[..i]) <= Flatten(days)
    decreases |days|
  {
    if i < |days| {
      var front := days[..|days| - 1];
      FlattenPrefix(front, i);
      assert front[..i] == days[..i];
    } else {
      assert days[..i] == days;
    }
  }

  /** The lines of day i follow those of the days before it. */
  lemma LineOfDay(days: seq<seq<Line>>, i: nat, j: nat)
    requires i < |days| && j < |days[i]|
    ensures var log, start := Flatten(days), |Flatten(days[..i])|; start + j < |log| && log[start + j] == days[i][j]
  {
    FlattenPrefix(days, i + 1);
    assert days[..i + 1][..i] == days[..i] && days[..i + 1][i] == days[i];
  }

  lemma DayEnds(days: seq<seq<Line>>, i: nat)
    requires i < |days|
    ensures |Flatten(days[..i + 1])| == |Flatten(days[..i])| + |days[i]| && |Flatten(days[..i + 1])| <= |Flatten(days)|
  {
    FlattenPrefix(days, i + 1);
    assert days[..i + 1][..i] == days[..i] && days[..i + 1][i] == days[i];
  }

  /** `originOf`. */
  method OriginOf(connection: string, days: seq<seq<Line>>, modified: int, after: int) returns (o: Origin)
    ensures var log := Flatten(days);
            o == OriginAt(log, connection, Walk(log, |log|, connection, after), modified)
  {
    var name := connection;
    ghost var log := Flatten(days);
    var i := |days|;
    assert days[..i] == days;
    while i > 0
      invariant 0 <= i <= |days| && |Flatten(days[..i])| <= |log|
      invariant Walk(log, |log|, connection, after) == Walk(log, |Flatten(days[..i])|, name, after)
    {
      i := i - 1;
      DayEnds(days, i);
      var lines := days[i];
      ghost var start := |Flatten(days[..i])|;
      var j := |lines|;
      while j > 0
        invariant 0 <= j <= |lines| && start + j <= |log|
        invariant Walk(log, |log|, connection, after) == Walk(log, start + j, name, after)
      {
        j := j - 1;
        var l := lines[j];
        LineOfDay(days, i, j);
        if Skipped(l, name, after) {
          continue;
        }
        if IsRename(l) {
          name := l.former;
          continue;
        }
        if !IsChange(l) {
          continue;
        }
        return Origin(l.path, l.time, l.number, l.macValid && l.chainIntact, if name != connection then name else "");
      }
    }
    return Origin(OUTSIDE, modified, 0, false, "");
  }

  // ---------------------------------------------------------------- the walk follows the connection

  predicate Sound(names: map<string, int>, k: int) {
    Injective(names) && "" !in names && forall n | n in names :: names[n] < k
  }

  lemma AfterIsSound(names: map<string, int>, l: Line, i: nat)
    requires Sound(names, i) && Possible(names, l)
    ensures Sound(After(names, l, i), i + 1)
  {
  }

  lemma NamesStaySound(older: map<string, int>, log: seq<Line>, k: nat)
    requires 0 < k <= |log| && Sound(Names(older, log, k - 1), k - 1) && Possible(Names(older, log, k - 1), log[k - 1])
    ensures Sound(Names(older, log, k), k)
  {
    AfterIsSound(Names(older, log, k - 1), log[k - 1], k - 1);
  }

  lemma {:induction false} NamesAreSound(older: map<string, int>, log: seq<Line>, k: nat)
    requires Consistent(older, log) && k <= |log|
    ensures Sound(Names(older, log, k), k)
  {
    if k > 0 {
      NamesAreSound(older, log, k - 1);
      PossibleAt(older, log, k - 1);
      NamesStaySound(older, log, k);
    }
  }

  lemma PossibleAt(older: map<string, int>, log: seq<Line>, i: nat)
    requires Consistent(older, log) && i < |log|
    ensures Possible(Names(older, log, i), log[i])
  {
  }

  /** Before the cut-off there is nothing to find. */
  lemma {:induction false} NothingBefore(log: seq<Line>, k: nat, name: string, after: int)
    requires k <= |log| && forall i | 0 <= i < k && IsEvent(log[i]) :: log[i].time <= after
    ensures Walk(log, k, name, after) == None
  {
    if k > 0 { NothingBefore(log, k - 1, name, after); }
  }

  function LineOf(found: Option<(nat, string)>): Option<nat> {
    match found case None => None case Some((i, _)) => Some(i)
  }

  /** Nothing more explains x when line k - 1 does not. */
  lemma YoungestBefore(older: map<string, int>, log: seq<Line>, after: int, x: int, k: nat, found: Option<nat>)
    requires 0 < k <= |log| && !Explains(older, log, after, x, k - 1)
    requires IsYoungest(older, log, after, x, k - 1, found)
    ensures IsYoungest(older, log, after, x, k, found)
  {
  }

  /** The name borne before a line. */
  function Formerly(l: Line, name: string): string {
    if IsEvent(l) && l.connection == name && l.operation == Rename then l.former else name
  }

  /** A line that is neither too old nor a change of the connection leads the walk on to the name before it. */
  lemma WalkGoesOn(older: map<string, int>, log: seq<Line>, k: nat, name: string, after: int)
    requires Consistent(older, log) && TimeOrdered(log) && 0 < k <= |log| && name in Names(older, log, k)
    requires IsEvent(log[k - 1]) && log[k - 1].connection == name ==> log[k - 1].time > after && !IsChange(log[k - 1])
    ensures var was, x := Formerly(log[k - 1], name), Names(older, log, k)[name];
            && was in Names(older, log, k - 1) && Names(older, log, k - 1)[was] == x
            && Walk(log, k, name, after) == Walk(log, k - 1, was, after)
            && !Explains(older, log, after, x, k - 1)
  {
    NamesAreSound(older, log, k - 1);
  }

  /** Of the connection that bears a name, the walk back from there finds the youngest change after the
      cut-off, however often it was renamed and its names reused. */
  lemma {:induction false} WalkFindsYoungest(older: map<string, int>, log: seq<Line>, k: nat, name: string, after: int)
    requires Consistent(older, log) && TimeOrdered(log) && k <= |log|
    requires name in Names(older, log, k)
    ensures IsYoungest(older, log, after, Names(older, log, k)[name], k, LineOf(Walk(log, k, name, after)))
  {
    if k > 0 {
      var l, x := log[k - 1], Names(older, log, k)[name];
      if IsEvent(l) && l.connection == name && l.time <= after {
        OldLines(older, log, k, name, after, x);
      } else if !(IsEvent(l) && l.connection == name && IsChange(l)) {
        WalkGoesOn(older, log, k, name, after);
        var was := Formerly(l, name);
        WalkFindsYoungest(older, log, k - 1, was, after);
        YoungestBefore(older, log, after, x, k, LineOf(Walk(log, k - 1, was, after)));
      } else {
        ChangeIsFound(older, log, k, name, after);
      }
    }
  }

  lemma ChangeIsFound(older: map<string, int>, log: seq<Line>, k: nat, name: string, after: int)
    requires TimeOrdered(log) && 0 < k <= |log| && name in Names(older, log, k)
    requires IsEvent(log[k - 1]) && log[k - 1].connection == name && IsChange(log[k - 1]) && log[k - 1].time > after
    ensures IsYoungest(older, log, after, Names(older, log, k)[name], k, LineOf(Walk(log, k, name, after)))
  {
    assert Walk(log, k, name, after) == Some((k - 1, name));
    assert Explains(older, log, after, Names(older, log, k)[name], k - 1);
  }

  lemma OldLines(older: map<string, int>, log: seq<Line>, k: nat, name: string, after: int, x: int)
    requires TimeOrdered(log) && 0 < k <= |log| && IsEvent(log[k - 1]) && log[k - 1].time <= after
    ensures IsYoungest(older, log, after, x, k, LineOf(Walk(log, k, name, after)))
  {
    NothingBefore(log, k, name, after);
  }

  /** The name the walk reports is the one the connection bore when it was changed. */
  lemma {:induction false} WalkTellsTheName(older: map<string, int>, log: seq<Line>, k: nat, name: string, after: int)
    requires k <= |log|
    ensures var r := Walk(log, k, name, after); r.Some? ==> log[r.value.0].connection == r.value.1
  {
    if k > 0 {
      WalkTellsTheName(older, log, k - 1, name, after);
      WalkTellsTheName(older, log, k - 1, log[k - 1].former, after);
    }
  }

  /** What OriginOf returns for a connection the log knows: the youngest line that explains it, and no line
      exactly when none does. */
  lemma OriginIsYoungest(older: map<string, int>, log: seq<Line>, connection: string, modified: int, after: int)
    requires Consistent(older, log) && TimeOrdered(log) && connection in Names(older, log, |log|)
    ensures var x, o := Names(older, log, |log|)[connection],
                        OriginAt(log, connection, Walk(log, |log|, connection, after), modified);
            if exists i :: 0 <= i < |log| && Explains(older, log, after, x, i) then
              exists i: nat | i < |log| :: IsYoungest(older, log, after, x, |log|, Some(i)) && o.time == log[i].time &&
                o.number == log[i].number && o.source == log[i].path &&
                (o.verified <==> log[i].macValid && log[i].chainIntact) &&
                o.formerly == (if log[i].connection == connection then "" else log[i].connection)
            else o == Origin(OUTSIDE, modified, 0, false, "")
  {
    WalkFindsYoungest(older, log, |log|, connection, after);
    WalkTellsTheName(older, log, |log|, connection, after);
  }

  /** Days that end before the cut-off need not be read. */
  lemma {:induction false} OldDaysDoNotMatter(before: seq<Line>, log: seq<Line>, k: nat, name: string, after: int)
    requires k <= |log| && forall i | 0 <= i < |before| && IsEvent(before[i]) :: before[i].time <= after
    ensures Walk(before + log, |before| + k, name, after) ==
            match Walk(log, k, name, after) case None => None case Some((i, n)) => Some((|before| + i, n))
  {
    if k == 0 {
      NothingBefore(before + log, |before|, name, after);
    } else {
      assert (before + log)[|before| + k - 1] == log[k - 1];
      OldDaysDoNotMatter(before, log, k - 1, name, after);
      OldDaysDoNotMatter(before, log, k - 1, log[k - 1].former, after);
    }
  }

  /** When the bearer of a name was removed, or renamed away, and the name is borne by a connection the log does
      not know, the walk answers for the last bearer the log knows. */
  lemma {:induction false} WalkAnswersForTheLastBearer(older: map<string, int>, log: seq<Line>, j: nat, k: nat,
                                                       name: string, after: int)
    requires Consistent(older, log) && j <= k <= |log|
    requires forall i | j < i <= k :: name !in Names(older, log, i)
    ensures Walk(log, k, name, after) == Walk(log, j, name, after)
  {
    if j < k {
      var l := log[k - 1];
      assert name !in Names(older, log, k);
      assert Possible(Names(older, log, k - 1), l);
      WalkAnswersForTheLastBearer(older, log, j, k - 1, name, after);
    }
  }

  /** How many lines there were when the log last knew a bearer of the name. */
  function LastBorne(older: map<string, int>, log: seq<Line>, k: nat, name: string): (r: Option<nat>)
    requires k <= |log|
    ensures r.Some? ==> r.value <= k && name in Names(older, log, r.value)
    ensures forall i | 0 <= i <= k && (r.None? || r.value < i) :: name !in Names(older, log, i)
  {
    if name in Names(older, log, k) then Some(k)
    else if k == 0 then None
    else LastBorne(older, log, k - 1, name)
  }

  /** For every name: the walk finds the youngest change, after the cut-off, of the last connection the log knows
      under it, up to where it lost the name, and nothing for a name nobody bore. */
  lemma WalkMeans(older: map<string, int>, log: seq<Line>, name: string, after: int)
    requires Consistent(older, log) && TimeOrdered(log)
    ensures var found := Walk(log, |log|, name, after);
            match LastBorne(older, log, |log|, name)
            case None => found == None
            case Some(j) => IsYoungest(older, log, after, Names(older, log, j)[name], j, LineOf(found))
  {
    match LastBorne(older, log, |log|, name)
    case None => WalkAnswersForTheLastBearer(older, log, 0, |log|, name, after);
    case Some(j) =>
      WalkAnswersForTheLastBearer(older, log, j, |log|, name, after);
      WalkFindsYoungest(older, log, j, name, after);
  }

  /** One of the first k lines created or changed connection x after the cut-off. */
  predicate IsExplained(older: map<string, int>, log: seq<Line>, after: int, x: int, k: nat)
    requires k <= |log|
  {
    exists i | 0 <= i < k :: Explains(older, log, after, x, i)
  }

  lemma FoundIfExplained(older: map<string, int>, log: seq<Line>, after: int, x: int, k: nat, found: Option<nat>)
    requires k <= |log| && IsYoungest(older, log, after, x, k, found)
    ensures found.Some? <==> IsExplained(older, log, after, x, k)
  {
  }

  /** A connection the log does not know is explained by another one's line exactly when the last bearer of its name
      was created or changed after the cut-off before it lost the name. */
  lemma MisreadExactly(older: map<string, int>, log: seq<Line>, name: string, after: int)
    requires Consistent(older, log) && TimeOrdered(log) && name !in Names(older, log, |log|)
    ensures Walk(log, |log|, name, after).Some? <==>
            match LastBorne(older, log, |log|, name)
            case None => false
            case Some(j) => IsExplained(older, log, after, Names(older, log, j)[name], j)
  {
    WalkMeans(older, log, name, after);
    match LastBorne(older, log, |log|, name)
    case None =>
    case Some(j) =>
      FoundIfExplained(older, log, after, Names(older, log, j)[name], j, LineOf(Walk(log, |log|, name, after)));
  }

  /** So a connection written by hand under the name of a deleted one is explained by the deleted one's log. */
  lemma HandMadeSuccessorIsMisread()
    ensures exists log, name :: Consistent(map[], log) && TimeOrdered(log) && name !in Names(map[], log, |log|) &&
              Walk(log, |log|, name, 0).Some?
  {
    var made := Line(true, false, "cli", Create, "a", "", true, 1, 1, true, true);
    var gone := made.(operation := Delete);
    var log := [made, gone];
    assert Names(map[], log, 1) == map["a" := 0];
    assert Walk(log, 1, "a", 0) == Some((0, "a"));
    assert Walk(log, 2, "a", 0).Some?;
  }
}
