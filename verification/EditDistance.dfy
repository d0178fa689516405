/** The Levenshtein distance and the suggestion for a misspelled name (internal/application/errors.go). */
module EditDistance {
  import opened Order

  /** One edit of a script: a character becomes another one (or stays itself, which is free), is inserted, or
      is deleted. */
  datatype Edit = Change(from: char, to: char) | Add(c: char) | Delete(c: char)

  function EditCost(e: Edit): nat { if e.Change? && e.from == e.to then 0 else 1 }

  function Last<T>(s: seq<T>): T
    requires s != []
  {
    s[|s| - 1]
  }

  function Front<T>(s: seq<T>): seq<T>
    requires s != []
  {
    s[..|s| - 1]
  }

  /** The text a script reads. */
  function Source(script: seq<Edit>): string {
    if script == [] then ""
    else
      Source(Front(script)) +
      match Last(script) case Change(x, _) => [x] case Add(_) => "" case Delete(x) => [x]
  }

  /** The text a script writes. */
  function Target(script: seq<Edit>): string {
    if script == [] then ""
    else
      Target(Front(script)) +
      match Last(script) case Change(_, y) => [y] case Add(y) => [y] case Delete(_) => ""
  }

  function Cost(script: seq<Edit>): nat {
    if script == [] then 0 else Cost(Front(script)) + EditCost(Last(script))
  }

  predicate Edits(script: seq<Edit>, a: string, b: string) { Source(script) == a && Target(script) == b }

  function Min(x: nat, y: nat): nat { if x <= y then x else y }

  function Cell(up: nat, left: nat, diagonal: nat, same: bool): nat {
    Min(Min(up + 1, left + 1), diagonal + if same then 0 else 1)
  }

  /** The first `j + 1` cells of the row of the character `c` under the row `above`. */
  function NextRow(c: char, b: string, above: seq<nat>, j: nat): (row: seq<nat>)
    requires |above| == |b| + 1 && j <= |b|
    ensures |row| == j + 1
  {
    if j == 0 then [above[0] + 1]
    else
      var row := NextRow(c, b, above, j - 1);
      row + [Cell(above[j], row[j - 1], above[j - 1], c == b[j - 1])]
  }

  /** Row `i` of the table for `a` and `b`. */
  function Row(a: string, b: string, i: nat): (row: seq<nat>)
    requires i <= |a|
    ensures |row| == |b| + 1
  {
    if i == 0 then seq(|b| + 1, k => k) else NextRow(a[i - 1], b, Row(a, b, i - 1), |b|)
  }

  function Distance(a: string, b: string): nat { Row(a, b, |a|)[|b|] }

  /** `editDistance`: two rows of the table, swapped after each one. */
  method TwoRowDistance(a: string, b: string) returns (d: nat)
    ensures d == Distance(a, b)
  {
    var previous, current := new nat[|b| + 1], new nat[|b| + 1];
    for j := 0 to |b| + 1
      invariant forall k | 0 <= k < j :: previous[k] == k
    {
      previous[j] := j;
    }
    assert previous[..] == Row(a, b, 0);
    for i := 1 to |a| + 1
      invariant previous.Length == current.Length == |b| + 1 && previous != current
      invariant fresh(previous) && fresh(current)
      invariant previous[..] == Row(a, b, i - 1) && previous[0] == i - 1
    {
      FillRow(a[i - 1], b, i, previous, current);
      previous, current := current, previous;
    }
    d := previous[|b|];
  }

  /** One row of the table from the row above it, whose first cell is `i - 1`. */
  method FillRow(c: char, b: string, i: nat, previous: array<nat>, current: array<nat>)
    requires previous.Length == current.Length == |b| + 1 && previous != current && previous[0] + 1 == i
    modifies current
    ensures current[..] == NextRow(c, b, previous[..], |b|) && current[0] == i
  {
    current[0] := i;
    for j := 1 to |b| + 1
      invariant current[..j] == NextRow(c, b, previous[..], j - 1) && current[0] == i
    {
      var cost := 1;
      if c == b[j - 1] {
        cost := 0;
      }
      assert current[j - 1] == current[..j][j - 1];
      current[j] := Min(Min(previous[j] + 1, current[j - 1] + 1), previous[j - 1] + cost);
      assert current[..j + 1] == current[..j] + [current[j]];
    }
    assert current[..|b| + 1] == current[..];
  }

  /** The table: the distance of the first `i` characters of `a` and the first `j` of `b`. */
  function Table(a: string, b: string, i: nat, j: nat): nat
    requires i <= |a| && j <= |b|
  {
    Row(a, b, i)[j]
  }

  lemma {:induction false} NextRowCells(c: char, b: string, above: seq<nat>, j: nat, n: nat)
    requires |above| == |b| + 1 && j <= n <= |b|
    ensures NextRow(c, b, above, n)[j] == NextRow(c, b, above, j)[j]
    ensures j > 0 ==>
        NextRow(c, b, above, n)[j] == Cell(above[j], NextRow(c, b, above, n)[j - 1], above[j - 1], c == b[j - 1])
    ensures j == 0 ==> NextRow(c, b, above, n)[j] == above[0] + 1
  {
    if n > j { NextRowCells(c, b, above, j, n - 1); }
  }

  /** The textbook recurrence. */
  lemma TableStep(a: string, b: string, i: nat, j: nat)
    requires i <= |a| && j <= |b|
    ensures i == 0 ==> Table(a, b, i, j) == j
    ensures i > 0 && j > 0 ==>
        Table(a, b, i, j) ==
        Cell(Table(a, b, i - 1, j), Table(a, b, i, j - 1), Table(a, b, i - 1, j - 1), a[i - 1] == b[j - 1])
    ensures i > 0 && j == 0 ==> Table(a, b, i, j) == Table(a, b, i - 1, j) + 1
  {
    if i > 0 { NextRowCells(a[i - 1], b, Row(a, b, i - 1), j, |b|); }
  }

  // ---------------------------------------------------------------- optimal over all scripts

  /** No script is cheaper. */
  lemma {:induction false} TableIsLowerBound(script: seq<Edit>, a: string, b: string, i: nat, j: nat)
    requires i <= |a| && j <= |b| && Source(script) == a[..i] && Target(script) == b[..j]
    ensures Table(a, b, i, j) <= Cost(script)
    decreases |script|
  {
    TableStep(a, b, i, j);
    if script == [] {
      assert |a[..i]| == 0 && |b[..j]| == 0;
    } else {
      var s, t := Source(Front(script)), Target(Front(script));
      match Last(script)
      case Change(x, y) =>
        TableIsLowerBound(Front(script), a, b, i - 1, j - 1);
      case Add(y) =>
        TableIsLowerBound(Front(script), a, b, i, j - 1);
      case Delete(x) =>
        TableIsLowerBound(Front(script), a, b, i - 1, j);
    }
  }

  /** A script as cheap as the table says. */
  ghost function Optimal(a: string, b: string, i: nat, j: nat): (script: seq<Edit>)
    requires i <= |a| && j <= |b|
    ensures Edits(script, a[..i], b[..j]) && Cost(script) == Table(a, b, i, j)
  {
    TableStep(a, b, i, j);
    if i == 0 && j == 0 then []
    else if j == 0 || (i > 0 && Table(a, b, i, j) == Table(a, b, i - 1, j) + 1) then
      var script := Optimal(a, b, i - 1, j);
      assert a[..i] == a[..i - 1] + [a[i - 1]];
      script + [Delete(a[i - 1])]
    else if i == 0 || Table(a, b, i, j) == Table(a, b, i, j - 1) + 1 then
      var script := Optimal(a, b, i, j - 1);
      assert b[..j] == b[..j - 1] + [b[j - 1]];
      script + [Add(b[j - 1])]
    else
      var script := Optimal(a, b, i - 1, j - 1);
      assert a[..i] == a[..i - 1] + [a[i - 1]] && b[..j] == b[..j - 1] + [b[j - 1]];
      script + [Change(a[i - 1], b[j - 1])]
  }

  ghost function Shortest(a: string, b: string): (script: seq<Edit>)
    ensures Edits(script, a, b) && Cost(script) == Distance(a, b)
  {
    assert a[..|a|] == a && b[..|b|] == b;
    Optimal(a, b, |a|, |b|)
  }

  lemma DistanceIsLowerBound(script: seq<Edit>, a: string, b: string)
    requires Edits(script, a, b)
    ensures Distance(a, b) <= Cost(script)
  {
    assert a[..|a|] == a && b[..|b|] == b;
    TableIsLowerBound(script, a, b, |a|, |b|);
  }

  /** The distance is the length of a shortest edit script. */
  lemma DistanceIsShortest(a: string, b: string)
    ensures exists script :: Edits(script, a, b) && Cost(script) == Distance(a, b)
    ensures forall script :: Edits(script, a, b) ==> Distance(a, b) <= Cost(script)
  {
    var script := Shortest(a, b);
    assert Edits(script, a, b) && Cost(script) == Distance(a, b);
    forall script | Edits(script, a, b) ensures Distance(a, b) <= Cost(script) {
      DistanceIsLowerBound(script, a, b);
    }
  }

  // ---------------------------------------------------------------- a metric

  lemma {:induction false} FreeScriptKeeps(script: seq<Edit>)
    requires Cost(script) == 0
    ensures Source(script) == Target(script)
    decreases |script|
  {
    if script != [] { FreeScriptKeeps(Front(script)); }
  }

  lemma {:induction false} SelfDistance(a: string, i: nat)
    requires i <= |a|
    ensures Table(a, a, i, i) == 0
  {
    TableStep(a, a, i, i);
    if i > 0 { SelfDistance(a, i - 1); }
  }

  lemma DistanceZero(a: string, b: string)
    ensures Distance(a, b) == 0 <==> a == b
  {
    SelfDistance(a, |a|);
    var script := Shortest(a, b);
    if Cost(script) == 0 { FreeScriptKeeps(script); }
  }

  /** The script that undoes a script. */
  ghost function Mirror(script: seq<Edit>): (r: seq<Edit>)
    ensures Edits(r, Target(script), Source(script)) && Cost(r) == Cost(script)
    decreases |script|
  {
    if script == [] then []
    else
      var e := match Last(script) case Change(x, y) => Change(y, x) case Add(y) => Delete(y) case Delete(x) => Add(x);
      Mirror(Front(script)) + [e]
  }

  lemma DistanceIsSymmetric(a: string, b: string)
    ensures Distance(a, b) == Distance(b, a)
  {
    DistanceIsLowerBound(Mirror(Shortest(a, b)), b, a);
    DistanceIsLowerBound(Mirror(Shortest(b, a)), a, b);
  }

  /** Two scripts in a row as one script that costs no more. */
  ghost function Compose(s: seq<Edit>, t: seq<Edit>): (r: seq<Edit>)
    requires Target(s) == Source(t)
    ensures Edits(r, Source(s), Target(t)) && Cost(r) <= Cost(s) + Cost(t)
    decreases |s| + |t|
  {
    if s != [] && Last(s).Delete? then
      Compose(Front(s), t) + [Last(s)]
    else if t != [] && Last(t).Add? then
      Compose(s, Front(t)) + [Last(t)]
    else if s == [] || t == [] then []
    else
      SameLast(s, t);
      var r := Compose(Front(s), Front(t));
      match (Last(s), Last(t))
      case (Change(x, _), Change(_, z)) => r + [Change(x, z)]
      case (Change(x, _), Delete(_)) => r + [Delete(x)]
      case (Add(_), Change(_, z)) => r + [Add(z)]
      case _ => r
  }

  lemma SameLast(s: seq<Edit>, t: seq<Edit>)
    requires Target(s) == Source(t) && s != [] && t != []
    requires !Last(s).Delete? && !Last(t).Add?
    ensures Target(Front(s)) == Source(Front(t))
    ensures (if Last(s).Change? then Last(s).to else Last(s).c) == (if Last(t).Change? then Last(t).from else Last(t).c)
  {
    var m := Target(s);
    assert Target(Front(s)) == m[..|m| - 1] && Source(Front(t)) == m[..|m| - 1];
    assert m[|m| - 1] == (if Last(s).Change? then Last(s).to else Last(s).c);
  }

  lemma TriangleInequality(a: string, b: string, c: string)
    ensures Distance(a, c) <= Distance(a, b) + Distance(b, c)
  {
    DistanceIsLowerBound(Compose(Shortest(a, b), Shortest(b, c)), a, c);
  }

  // ---------------------------------------------------------------- suggestions

  /** How many characters of a name may differ: a third, and at least one. */
  function Tolerance(name: string): nat { if |name| / 3 > 1 then |name| / 3 else 1 }

  /** `c` is a candidate close enough to suggest for `name`; `lower` is strings.ToLower. */
  predicate Close(lower: string -> string, name: string, c: string) {
    Distance(lower(name), lower(c)) <= Tolerance(name)
  }

  /** `c` is closer than `e`, or as close and first in sorted order. */
  predicate Better(lower: string -> string, name: string, c: string, e: string) {
    var d, f := Distance(lower(name), lower(c)), Distance(lower(name), lower(e));
    d < f || (d == f && (c == e || Less(c, e)))
  }

  /** What the suggestion is: empty for a candidate itself or without a close one, and otherwise the first
      closest candidate. The order of the candidates does not appear. */
  predicate IsSuggestion(lower: string -> string, name: string, candidates: set<string>, r: string) {
    if name in candidates || !(exists c | c in candidates :: Close(lower, name, c)) then r == ""
    else
      r in candidates && Close(lower, name, r) &&
      forall c | c in candidates :: Better(lower, name, r, c)
  }

  lemma SuggestionIsUnique(lower: string -> string, name: string, candidates: set<string>, r: string, q: string)
    requires IsSuggestion(lower, name, candidates, r) && IsSuggestion(lower, name, candidates, q)
    ensures r == q
  {
    if r != q {
      assert Better(lower, name, r, q) && Better(lower, name, q, r);
      if Less(r, q) { LessIsAsymmetric(r, q); }
    }
  }

  /** At most a third of the characters differ, or one. */
  predicate IsMisspelling(lower: string -> string, name: string, c: string) {
    var d := Distance(lower(name), lower(c));
    d <= 1 || 3 * d <= |name|
  }

  /** What is no candidate is answered with a candidate of which it is a misspelling, and one that no candidate comes
      closer to, exactly if there is any. */
  lemma SuggestionIsMisspelled(lower: string -> string, name: string, candidates: set<string>, r: string)
    requires name !in candidates && IsSuggestion(lower, name, candidates, r)
    ensures if exists c | c in candidates :: IsMisspelling(lower, name, c) then
              r in candidates && IsMisspelling(lower, name, r) &&
              forall c | c in candidates :: Distance(lower(name), lower(r)) <= Distance(lower(name), lower(c))
            else r == ""
  {
    forall c ensures Close(lower, name, c) <==> IsMisspelling(lower, name, c) { }
    forall c | c in candidates && r in candidates && Better(lower, name, r, c)
      ensures Distance(lower(name), lower(r)) <= Distance(lower(name), lower(c))
    {
    }
  }

  /** What the loop has found among the candidates it has seen. */
  predicate BestSoFar(lower: string -> string, name: string, seen: seq<string>, best: string, bestDistance: int) {
    && bestDistance <= Tolerance(name) + 1
    && (forall c | c in seen :: bestDistance <= Distance(lower(name), lower(c)))
    && if bestDistance == Tolerance(name) + 1 then best == ""
       else best in seen && Distance(lower(name), lower(best)) == bestDistance &&
            forall c | c in seen && Distance(lower(name), lower(c)) == bestDistance :: best == c || Less(best, c)
  }

  lemma BestIsSuggestion(lower: string -> string, name: string, candidates: set<string>, seen: seq<string>,
                         best: string, bestDistance: int)
    requires forall c :: c in candidates <==> c in seen
    requires name !in candidates && BestSoFar(lower, name, seen, best, bestDistance)
    ensures IsSuggestion(lower, name, candidates, best)
  {
    if bestDistance == Tolerance(name) + 1 {
      forall c | c in candidates ensures !Close(lower, name, c) { assert c in seen; }
    } else {
      assert best in candidates && Close(lower, name, best);
      forall c | c in candidates ensures Better(lower, name, best, c) { assert c in seen; }
    }
  }

  /** `Suggest`: its answer depends only on which names are candidates. */
  method Suggest(lower: string -> string, name: string, candidates: seq<string>) returns (best: string)
    ensures IsSuggestion(lower, name, (set c | c in candidates), best)
  {
    var sorted := Sort(candidates);
    SortedSame(candidates);
    best := "";
    var bestDistance := Tolerance(name) + 1;
    for i := 0 to |sorted|
      invariant BestSoFar(lower, name, sorted[..i], best, bestDistance) && name !in sorted[..i]
    {
      var candidate := sorted[i];
      if candidate == name {
        assert candidate in sorted;
        return "";
      }
      var distance := TwoRowDistance(lower(name), lower(candidate));
      if distance < bestDistance {
        best, bestDistance := candidate, distance;
      }
      assert sorted[..i + 1] == sorted[..i] + [candidate];
    }
    assert sorted[..|sorted|] == sorted;
    BestIsSuggestion(lower, name, (set c | c in candidates), sorted, best, bestDistance);
  }

  lemma SortedSame(s: seq<string>)
    ensures forall c :: c in s <==> c in Sort(s)
  {
    forall c ensures c in s <==> c in Sort(s) {
      assert c in s <==> c in multiset(s);
      assert c in Sort(s) <==> c in multiset(Sort(s));
    }
  }
}
