/** The order Go's sort.Strings uses, and sorted listings of sets of strings. */
module Order {

  /** Strictly before, character by character; a proper prefix comes first. */
  predicate Less(a: string, b: string) {
    b != [] && (a == [] || a[0] < b[0] || (a[0] == b[0] && Less(a[1..], b[1..])))
  }

  lemma {:induction false} LessIsIrreflexive(a: string)
    ensures !Less(a, a)
  {
    if a != [] { LessIsIrreflexive(a[1..]); }
  }

  lemma {:induction false} LessIsTransitive(a: string, b: string, c: string)
    requires Less(a, b) && Less(b, c)
    ensures Less(a, c)
  {
    if a != [] && a[0] == b[0] == c[0] { LessIsTransitive(a[1..], b[1..], c[1..]); }
  }

  lemma {:induction false} LessIsTotal(a: string, b: string)
    ensures a == b || Less(a, b) || Less(b, a)
  {
    if a != [] && b != [] && a[0] == b[0] {
      LessIsTotal(a[1..], b[1..]);
      if a[1..] == b[1..] { assert a == [a[0]] + a[1..] == [b[0]] + b[1..] == b; }
    }
  }

  lemma LessIsAsymmetric(a: string, b: string)
    requires Less(a, b)
    ensures !Less(b, a) && a != b
  {
    LessIsIrreflexive(a);
    if Less(b, a) { LessIsTransitive(a, b, a); }
  }

  predicate IsFirst(r: string, s: set<string>) {
    r in s && forall x | x in s :: x == r || Less(r, x)
  }

  lemma FirstExists(s: set<string>)
    requires s != {}
    ensures exists r :: IsFirst(r, s)
    decreases |s|
  {
    var x :| x in s;
    if s - {x} == {} {
      assert s == {x};
      assert IsFirst(x, s);
    } else {
      FirstExists(s - {x});
      var r :| IsFirst(r, s - {x});
      LessIsTotal(x, r);
      var least := if Less(x, r) then x else r;
      forall y | y in s ensures y == least || Less(least, y) {
        if Less(x, r) && y in s - {x} && y != r { LessIsTransitive(x, r, y); }
      }
      assert IsFirst(least, s);
    }
  }

  lemma FirstIsUnique(r: string, q: string, s: set<string>)
    requires IsFirst(r, s) && IsFirst(q, s)
    ensures r == q
  {
    if r != q { LessIsAsymmetric(r, q); }
  }

  function First(s: set<string>): (r: string)
    requires s != {}
    ensures IsFirst(r, s)
  {
    FirstExists(s);
    assert forall r, q | IsFirst(r, s) && IsFirst(q, s) :: r == q by {
      forall r, q | IsFirst(r, s) && IsFirst(q, s) ensures r == q { FirstIsUnique(r, q, s); }
    }
    var first :| IsFirst(first, s);
    first
  }

  predicate Ascending(names: seq<string>) {
    forall i, j | 0 <= i < j < |names| :: Less(names[i], names[j])
  }

  /** The elements of a set, sorted. */
  function Sorted(s: set<string>): (r: seq<string>)
    ensures Ascending(r) && |r| == |s|
    ensures forall x :: x in r <==> x in s
    decreases |s|
  {
    if s == {} then []
    else
      var first := First(s);
      var rest := Sorted(s - {first});
      assert forall i | 0 <= i < |rest| :: rest[i] in s - {first};
      assert forall x | x in s && x != first :: x in rest;
      [first] + rest
  }

  lemma EmptyOrHas(b: seq<string>)
    ensures b == [] || exists x :: x in b
  {
    if b != [] { assert b[0] in b; }
  }

  /** A sorted listing is determined by its elements. */
  lemma {:induction false} AscendingIsUnique(a: seq<string>, b: seq<string>)
    requires Ascending(a) && Ascending(b)
    requires forall x :: x in a <==> x in b
    ensures a == b
    decreases |a|
  {
    if a == [] {
      EmptyOrHas(b);
    } else {
      assert a[0] in a && b != [] && b[0] in b;
      if a[0] != b[0] {
        var i :| 0 <= i < |a| && a[i] == b[0];
        var j :| 0 <= j < |b| && b[j] == a[0];
        LessIsAsymmetric(a[0], a[i]);
      }
      forall x ensures x in a[1..] <==> x in b[1..] {
        if x in a[1..] { NotInRest(a); assert x in a; assert x in b; }
        if x in b[1..] { NotInRest(b); assert x in b; assert x in a; }
      }
      AscendingIsUnique(a[1..], b[1..]);
    }
  }

  lemma NotInRest(a: seq<string>)
    requires Ascending(a) && a != []
    ensures a[0] !in a[1..]
  {
    LessIsIrreflexive(a[0]);
    forall i | 0 <= i < |a| - 1 ensures a[1..][i] != a[0] {
      assert Less(a[0], a[i + 1]);
    }
  }

  function Elements(names: seq<string>): set<string> { set n | n in names }

  lemma {:induction false} AscendingCount(names: seq<string>)
    requires Ascending(names)
    ensures |Elements(names)| == |names|
  {
    if names != [] {
      AscendingCount(names[1..]);
      NotInRest(names);
      assert names == [names[0]] + names[1..];
      assert Elements(names) == {names[0]} + Elements(names[1..]);
    }
  }

  /** Sorted, equal names next to each other. */
  predicate NonDescending(names: seq<string>) {
    forall i, j | 0 <= i < j < |names| :: names[i] == names[j] || Less(names[i], names[j])
  }

  lemma FirstStaysBelow(x: string, s: seq<string>)
    requires NonDescending(s) && s != [] && (x == s[0] || Less(x, s[0]))
    ensures forall j | 0 <= j < |s| :: x == s[j] || Less(x, s[j])
  {
    forall j | 0 <= j < |s| ensures x == s[j] || Less(x, s[j]) {
      if Less(x, s[0]) && Less(s[0], s[j]) { LessIsTransitive(x, s[0], s[j]); }
    }
  }

  lemma InsertedStaysAbove(x: string, s: seq<string>, rest: seq<string>)
    requires NonDescending(s) && s != [] && Less(s[0], x) && multiset(rest) == multiset(s[1..]) + multiset{x}
    ensures forall j | 0 <= j < |rest| :: s[0] == rest[j] || Less(s[0], rest[j])
  {
    forall j | 0 <= j < |rest| ensures s[0] == rest[j] || Less(s[0], rest[j]) {
      assert rest[j] in multiset(rest);
      if rest[j] != x {
        assert rest[j] in multiset(s[1..]);
        assert rest[j] in s[1..];
      }
    }
  }

  function Insert(x: string, s: seq<string>): (r: seq<string>)
    requires NonDescending(s)
    ensures NonDescending(r) && multiset(r) == multiset(s) + multiset{x}
  {
    if s == [] then [x]
    else if x == s[0] || Less(x, s[0]) then
      FirstStaysBelow(x, s);
      assert multiset([x] + s) == multiset{x} + multiset(s);
      [x] + s
    else
      LessIsTotal(x, s[0]);
      var rest := Insert(x, s[1..]);
      assert s == [s[0]] + s[1..];
      InsertedStaysAbove(x, s, rest);
      [s[0]] + rest
  }

  /** `sort.Strings`. */
  function Sort(s: seq<string>): (r: seq<string>)
    ensures NonDescending(r) && multiset(r) == multiset(s)
  {
    if s == [] then []
    else
      assert s == [s[0]] + s[1..];
      Insert(s[0], Sort(s[1..]))
  }

  /** `strings.Join`. */
  function Join(parts: seq<string>, sep: string): string {
    if parts == [] then "" else if |parts| == 1 then parts[0] else parts[0] + sep + Join(parts[1..], sep)
  }
}
